/** Writes going down a chain whose links may fail, one after the other: what the fate of every
    message does to the logs, and which failures the head never hears of. `LossyRuns` has the same
    losses in the interleaved protocol. */
module LossyChain {
  import opened Data
  import opened Messages
  import opened Replicas

  /** What became of one forwarded message: it and its reply arrived, it never reached the
      successor, or the reply to it was lost. */
  datatype Fate = Delivered | Lost | ReplyLost

  datatype Replica = Replica(cars: seq<Car>, hist: seq<Req>)

  function Invoked(year: int, v: Replica, r: Req): Replica {
    Replica(Effect(year, r.msg, v.cars), v.hist + [r])
  }

  /** One write handled by the first of these servers; `fates[i]` is the fate of its forwarding
      by server `i`. The result is the servers afterwards and the first one's reply. */
  function WriteDown(year: int, servers: seq<Replica>, r: Req, fates: seq<Fate>): (res: (seq<Replica>, Message))
    requires 0 < |servers| == |fates| + 1 && NeedsForward(r.msg)
    ensures |res.0| == |servers|
    decreases |servers|
  {
    var v := servers[0];
    if |servers| == 1 then
      ([Invoked(year, v, r)], ServedReply(year, r.msg, v.cars, NoSuccessor))
    else if fates[0] == Lost then
      (servers, ServedReply(year, r.msg, v.cars, NoReply))
    else
      var (below, reply) := WriteDown(year, servers[1..], r, fates[1..]);
      if fates[0] == ReplyLost then
        ([v] + below, ServedReply(year, r.msg, v.cars, NoReply))
      else
        ([Invoked(year, v, r)] + below, ServedReply(year, r.msg, v.cars, Replied(reply)))
  }

  datatype Write = Write(req: Req, fates: seq<Fate>)

  ghost predicate WellFormed(n: nat, ws: seq<Write>) {
    && n > 0
    && (forall k :: 0 <= k < |ws| ==> |ws[k].fates| == n - 1 && NeedsForward(ws[k].req.msg))
    && (forall j, k :: 0 <= j < k < |ws| ==> ws[j].req != ws[k].req)
  }

  /** The servers of a chain of `n` after these writes. */
  function RunOf(year: int, n: nat, ws: seq<Write>): (res: seq<Replica>)
    requires WellFormed(n, ws)
    ensures |res| == n
  {
    if ws == [] then seq(n, _ => Replica([], []))
    else
      var w := ws[|ws| - 1];
      WriteDown(year, RunOf(year, n, ws[..|ws| - 1]), w.req, w.fates).0
  }

  /** The request comes as far as server `i`. */
  predicate Reaches(fates: seq<Fate>, i: nat)
    requires i <= |fates|
  {
    forall j :: 0 <= j < i ==> fates[j] != Lost
  }

  /** Server `i` invokes the write: it is reached, and it is the last one or gets a reply. */
  predicate InvokedAt(fates: seq<Fate>, i: nat)
    requires i <= |fates|
  {
    Reaches(fates, i) && (i < |fates| ==> fates[i] == Delivered)
  }

  /** Which servers invoke a write, and whether its sender is told that it failed. */
  lemma {:induction false} WhoInvokes(year: int, servers: seq<Replica>, r: Req, fates: seq<Fate>, i: nat)
    requires i < |servers| == |fates| + 1 && NeedsForward(r.msg)
    ensures var (after, reply) := WriteDown(year, servers, r, fates);
            && after[i] == (if InvokedAt(fates, i)
                            then Replica(Effect(year, r.msg, servers[i].cars), servers[i].hist + [r]) else servers[i])
            && (InvokedAt(fates, i) <==>
                  (forall j :: 0 <= j < i ==> fates[j] != Lost) && (i == |fates| || fates[i] == Delivered))
            && reply == if |fates| == 0 || fates[0] == Delivered then Reply(year, r.msg, servers[0].cars)
                        else r.msg.(opcode := 99, result := -1)
  {
    if i > 0 {
      WhoInvokes(year, servers[1..], r, fates[1..], i - 1);
      assert Reaches(fates, i) <==> fates[0] != Lost && Reaches(fates[1..], i - 1);
    }
  }

  /** The writes that server `i` invokes, in order. */
  function InvokedLog(n: nat, ws: seq<Write>, i: nat): seq<Req>
    requires WellFormed(n, ws) && i < n
  {
    if ws == [] then [] else
      var (front, w) := (ws[..|ws| - 1], ws[|ws| - 1]);
      if InvokedAt(w.fates, i) then InvokedLog(n, front, i) + [w.req] else InvokedLog(n, front, i)
  }

  lemma {:induction false} HistoryIsLog(year: int, n: nat, ws: seq<Write>, i: nat)
    requires WellFormed(n, ws) && i < n
    ensures RunOf(year, n, ws)[i].hist == InvokedLog(n, ws, i)
  {
    if ws == [] {
    } else {
      var (front, w) := (ws[..|ws| - 1], ws[|ws| - 1]);
      HistoryIsLog(year, n, front, i);
      WhoInvokes(year, RunOf(year, n, front), w.req, w.fates, i);
    }
  }

  ghost predicate Subsequence<T>(s: seq<T>, t: seq<T>) {
    || s == []
    || (t != [] && (|| Subsequence(s, t[..|t| - 1])
                    || (s[|s| - 1] == t[|t| - 1] && Subsequence(s[..|s| - 1], t[..|t| - 1]))))
  }

  /** Each element of `s` has its own place in `t`, in the same order. */
  ghost predicate Embeds<T>(s: seq<T>, t: seq<T>, places: seq<nat>) {
    && |places| == |s|
    && (forall j :: 0 <= j < |s| ==> places[j] < |t| && t[places[j]] == s[j])
    && (forall i, j :: 0 <= i < j < |s| ==> places[i] < places[j])
  }

  lemma {:induction false} SubsequenceIffEmbeds<T>(s: seq<T>, t: seq<T>)
    ensures Subsequence(s, t) <==> exists places :: Embeds(s, t, places)
  {
    if Subsequence(s, t) {
      var places := PlacesOf(s, t);
    }
    if places :| Embeds(s, t, places) {
      EmbeddedIsSubsequence(s, t, places);
    }
  }

  lemma {:induction false} PlacesOf<T>(s: seq<T>, t: seq<T>) returns (places: seq<nat>)
    requires Subsequence(s, t)
    ensures Embeds(s, t, places)
  {
    if s == [] {
      places := [];
    } else if Subsequence(s, t[..|t| - 1]) {
      places := PlacesOf(s, t[..|t| - 1]);
    } else {
      places := PlacesOf(s[..|s| - 1], t[..|t| - 1]);
      places := places + [|t| - 1];
    }
  }

  lemma {:induction false} EmbeddedIsSubsequence<T>(s: seq<T>, t: seq<T>, places: seq<nat>)
    requires Embeds(s, t, places)
    ensures Subsequence(s, t)
  {
    if s != [] {
      var (m, n) := (|s| - 1, |t| - 1);
      if places[m] == n {
        EmbeddedIsSubsequence(s[..m], t[..n], places[..m]);
      } else {
        EmbeddedIsSubsequence(s, t[..n], places);
      }
    }
  }

  lemma {:induction false} SubsequenceMembers<T>(s: seq<T>, t: seq<T>, x: T)
    requires Subsequence(s, t) && x in s
    ensures x in t
  {
    var (s', t') := (s[..|s| - 1], t[..|t| - 1]);
    assert s == s' + [s[|s| - 1]] && t == t' + [t[|t| - 1]];
    if Subsequence(s, t') {
      SubsequenceMembers(s, t', x);
    } else if x in s' {
      SubsequenceMembers(s', t', x);
    }
  }

  lemma {:induction false} LogMembers(n: nat, ws: seq<Write>, i: nat, k: nat)
    requires WellFormed(n, ws) && i < n && k < |ws|
    ensures ws[k].req in InvokedLog(n, ws, i) <==> InvokedAt(ws[k].fates, i)
  {
    var (front, w) := (ws[..|ws| - 1], ws[|ws| - 1]);
    if k < |front| {
      LogMembers(n, front, i, k);
      assert front[k] == ws[k];
    } else {
      NotInLog(n, front, i, w.req);
    }
  }

  lemma {:induction false} NotInLog(n: nat, ws: seq<Write>, i: nat, r: Req)
    requires WellFormed(n, ws) && i < n && forall k :: 0 <= k < |ws| ==> ws[k].req != r
    ensures r !in InvokedLog(n, ws, i)
  {
    if ws != [] {
      NotInLog(n, ws[..|ws| - 1], i, r);
    }
  }

  /** The successor of server `i` gave up none of the writes that server `i` invoked. */
  ghost predicate NoneLostBelow(n: nat, ws: seq<Write>, i: nat)
    requires WellFormed(n, ws) && i + 1 < n
  {
    forall k :: 0 <= k < |ws| && InvokedAt(ws[k].fates, i) ==> i + 1 < n - 1 ==> ws[k].fates[i + 1] == Delivered
  }

  /** A server's log is a subsequence of its successor's exactly when it never invoked a write
      that the successor, having got no reply itself, gave up. */
  lemma LogIsSubsequenceIff(year: int, n: nat, ws: seq<Write>, i: nat)
    requires WellFormed(n, ws) && i + 1 < n
    ensures Subsequence(RunOf(year, n, ws)[i].hist, RunOf(year, n, ws)[i + 1].hist) <==> NoneLostBelow(n, ws, i)
  {
    hide Subsequence, RunOf, InvokedLog;
    HistoryIsLog(year, n, ws, i);
    HistoryIsLog(year, n, ws, i + 1);
    var (g, h) := (InvokedLog(n, ws, i), InvokedLog(n, ws, i + 1));
    if Subsequence(g, h) {
      forall k | 0 <= k < |ws| && InvokedAt(ws[k].fates, i) && i + 1 < n - 1
        ensures ws[k].fates[i + 1] == Delivered
      {
        LogMembers(n, ws, i, k);
        LogMembers(n, ws, i + 1, k);
        SubsequenceMembers(g, h, ws[k].req);
      }
    }
    if NoneLostBelow(n, ws, i) {
      NoneGivenUp(n, ws, i);
    }
  }

  lemma {:induction false} NoneGivenUp(n: nat, ws: seq<Write>, i: nat)
    requires WellFormed(n, ws) && i + 1 < n
    requires NoneLostBelow(n, ws, i)
    ensures Subsequence(InvokedLog(n, ws, i), InvokedLog(n, ws, i + 1))
  {
    if ws == [] {
    } else {
      var (front, w) := (ws[..|ws| - 1], ws[|ws| - 1]);
      assert forall k :: 0 <= k < |front| ==> front[k] == ws[k];
      NoneGivenUp(n, front, i);
      var (g, h) := (InvokedLog(n, front, i), InvokedLog(n, front, i + 1));
      if InvokedAt(w.fates, i) {
        assert InvokedAt(ws[|ws| - 1].fates, i);
        assert InvokedAt(w.fates, i + 1);
        assert (g + [w.req])[..|g|] == g && (h + [w.req])[..|h|] == h;
      } else if InvokedAt(w.fates, i + 1) {
        assert (h + [w.req])[..|h|] == h;
      }
    }
  }

  /** Next to the tail nothing can be given up: whatever is lost, the log of the last server but
      one, and so the head's in a chain of two, is a subsequence of the tail's. */
  lemma TailNeverMisses(year: int, n: nat, ws: seq<Write>)
    requires WellFormed(n, ws) && n >= 2
    ensures Subsequence(RunOf(year, n, ws)[n - 2].hist, RunOf(year, n, ws)[n - 1].hist)
  {
    LogIsSubsequenceIff(year, n, ws, n - 2);
  }

  /** A write acknowledged by the head has been invoked by every server exactly when nothing was
      lost below the first link; with no second link, that is always. */
  lemma {:induction false} AcknowledgedIsEverywhereIff(year: int, servers: seq<Replica>, r: Req, fates: seq<Fate>)
    requires 0 < |servers| == |fates| + 1 && NeedsForward(r.msg) && InvokedAt(fates, 0)
    ensures var (after, reply) := WriteDown(year, servers, r, fates);
            && reply == Reply(year, r.msg, servers[0].cars)
            && ((forall i :: 0 <= i < |servers| ==> after[i].hist == servers[i].hist + [r])
                <==> forall j :: 1 <= j < |fates| ==> fates[j] == Delivered)
  {
    var (after, reply) := WriteDown(year, servers, r, fates);
    forall i | 0 <= i < |servers|
      ensures after[i].hist == servers[i].hist + [r] <==> InvokedAt(fates, i)
      ensures reply == Reply(year, r.msg, servers[0].cars)
    {
      WhoInvokes(year, servers, r, fates, i);
    }
    assert after[0].hist == servers[0].hist + [r];
    if forall i :: 0 <= i < |servers| ==> after[i].hist == servers[i].hist + [r] {
      forall j | 1 <= j < |fates| ensures fates[j] == Delivered {
        assert after[j].hist == servers[j].hist + [r];
      }
    }
    if forall j :: 1 <= j < |fates| ==> fates[j] == Delivered {
      forall i | 0 <= i < |servers| ensures after[i].hist == servers[i].hist + [r] {
        assert InvokedAt(fates, i);
      }
    }
  }

  /** The smallest chain in which a failure stays hidden: of three servers the second cannot reach
      the third, answers the head with an error, and the head takes the answer for a success. */
  lemma HiddenFailure(year: int, r: Req)
    requires NeedsForward(r.msg)
    ensures var (after, reply) :=
              WriteDown(year, seq(3, _ => Replica([], [])), r, [Delivered, Lost]);
            && reply == Reply(year, r.msg, [])
            && after[0].hist == [r] && after[1].hist == after[2].hist == []
  {
    var (servers, fates) := (seq(3, _ => Replica([], [])), [Delivered, Lost]);
    WhoInvokes(year, servers, r, fates, 0);
    WhoInvokes(year, servers, r, fates, 1);
    WhoInvokes(year, servers, r, fates, 2);
    assert fates[1] == Lost;
  }
}
