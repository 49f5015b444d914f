/** What two replicas have in common when the same forwarded requests reached both, in the same
    order, between whatever other requests each of them served by itself. */
module Replicas {
  import opened Data
  import opened CarSeqs
  import opened Messages

  /** A request as it travels: its content and the number it was received under. */
  datatype Req = Req(id: nat, msg: Message)

  /** The list of a server that started empty and invoked these requests. */
  function Replay(year: int, h: seq<Req>): seq<Car> {
    if h == [] then [] else Effect(year, h[|h| - 1].msg, Replay(year, h[..|h| - 1]))
  }

  /** The reply it gave to request `k` of its history. */
  function ReplyTo(year: int, h: seq<Req>, k: nat): Message
    requires k < |h|
  {
    Reply(year, h[k].msg, Replay(year, h[..k]))
  }

  /** The forwarded requests among them. */
  function Writes(h: seq<Req>): seq<Req> {
    if h == [] then [] else
      var (front, r) := (h[..|h| - 1], h[|h| - 1]);
      if NeedsForward(r.msg) then Writes(front) + [r] else Writes(front)
  }

  lemma WritesSnoc(h: seq<Req>, r: Req)
    ensures Writes(h + [r]) == if NeedsForward(r.msg) then Writes(h) + [r] else Writes(h)
  {
    assert (h + [r])[..|h|] == h;
  }

  lemma {:induction false} WritesMembers(h: seq<Req>, r: Req)
    ensures r in Writes(h) <==> r in h && NeedsForward(r.msg)
  {
    if h == [] {
    } else {
      WritesMembers(h[..|h| - 1], r);
      assert h == h[..|h| - 1] + [h[|h| - 1]];
    }
  }

  /** The writes of a prefix are a prefix of the writes. */
  lemma {:induction false} WritesOfPrefix(h: seq<Req>, k: nat)
    requires k <= |h|
    ensures Writes(h[..k]) <= Writes(h)
  {
    if k == |h| {
      assert h[..k] == h;
    } else {
      WritesOfPrefix(h[..|h| - 1], k);
      assert h[..|h| - 1][..k] == h[..k];
    }
  }

  lemma {:induction false} ReplayKeepsValidated(year: int, h: seq<Req>)
    ensures AllValidated(year, Replay(year, h))
  {
    if h == [] {
    } else {
      ReplayKeepsValidated(year, h[..|h| - 1]);
      EffectKeepsValidated(year, h[|h| - 1].msg, Replay(year, h[..|h| - 1]));
    }
  }

  // ---------------------------------------------------------------- models

  function ModelsAfter(year: int, log: seq<Req>): multiset<string> {
    if log == [] then multiset{} else ModelsEffect(year, log[|log| - 1].msg, ModelsAfter(year, log[..|log| - 1]))
  }

  lemma {:induction false} ModelsOfReplay(year: int, h: seq<Req>)
    ensures Models(Replay(year, h)) == ModelsAfter(year, Writes(h))
  {
    if h == [] {
    } else {
      var (front, r) := (h[..|h| - 1], h[|h| - 1]);
      ModelsOfReplay(year, front);
      EffectOnModels(year, r.msg, Replay(year, front));
      assert (Writes(front) + [r])[..|Writes(front)|] == Writes(front);
    }
  }

  /** The same writes leave the same models behind and get the same reply to the next write,
      whatever orderings ran in between at either replica. */
  lemma SameWritesSameModels(year: int, g: seq<Req>, h: seq<Req>)
    requires Writes(g) == Writes(h)
    ensures Models(Replay(year, g)) == Models(Replay(year, h))
    ensures |Replay(year, g)| == |Replay(year, h)|
    ensures forall m :: NeedsForward(m) ==>
      Reply(year, m, Replay(year, g)) == Reply(year, m, Replay(year, h))
  {
    var (s, t) := (Replay(year, g), Replay(year, h));
    ModelsOfReplay(year, g);
    ModelsOfReplay(year, h);
    ModelsSize(s);
    ModelsSize(t);
    forall m | NeedsForward(m) ensures Reply(year, m, s) == Reply(year, m, t) {
      ForwardedReplySeesModelsOnly(year, m, s, t);
    }
  }

  // ---------------------------------------------------------------- years

  /** No two accepted cars of one model are of different years. */
  ghost predicate OneYearPerModel(year: int, log: seq<Req>) {
    forall r, q :: r in log && q in log && Adds(year, r.msg) && Adds(year, q.msg) ==>
      r.msg.data.value.modelo == q.msg.data.value.modelo ==>
        r.msg.data.value.ano == q.msg.data.value.ano
  }

  /** Every car in a list was put there by one of the writes. */
  lemma {:induction false} CarsComeFromWrites(year: int, h: seq<Req>, c: Car) returns (r: Req)
    requires c in Replay(year, h)
    ensures r in Writes(h) && Adds(year, r.msg) && r.msg.data.value == c
  {
    var (front, last) := (h[..|h| - 1], h[|h| - 1]);
    var s := Replay(year, front);
    if Adds(year, last.msg) && c == last.msg.data.value {
      r := last;
    } else {
      if Deletes(last.msg) {
        RemoveMembers(s, last.msg.models[0]);
      } else {
        SortIsStable(s);
      }
      assert c in multiset(Replay(year, h));
      assert !Adds(year, last.msg) ==> c in multiset(s);
      r := CarsComeFromWrites(year, front, c);
    }
  }

  /** As long as no model spans two years, the orderings leave no trace in any year. */
  lemma {:induction false} OrderingsLeaveNoTrace(year: int, h: seq<Req>)
    requires OneYearPerModel(year, Writes(h))
    ensures YearEq(Replay(year, h), Replay(year, Writes(h)))
  {
    if h == [] {
    } else {
      var (front, r) := (h[..|h| - 1], h[|h| - 1]);
      var log := Writes(front);
      var (s, t) := (Replay(year, front), Replay(year, log));
      assert forall q :: q in log ==> q in Writes(h);
      OrderingsLeaveNoTrace(year, front);
      if NeedsForward(r.msg) {
        assert Writes(h)[..|log|] == log;
        DeletionsAgree(year, front, log, r.msg);
        ForwardedKeepsYearEqIff(year, r.msg, s, t);
      } else {
        UnforwardedKeepsYears(year, r.msg, s);
        forall y ensures ByYear(Replay(year, h), y) == ByYear(t, y) {
          assert ByYear(Replay(year, h), y) == ByYear(s, y) == ByYear(t, y);
        }
      }
    }
  }

  lemma {:induction false} WritesOfWrites(h: seq<Req>)
    ensures Writes(Writes(h)) == Writes(h)
  {
    if h == [] {
    } else {
      WritesOfWrites(h[..|h| - 1]);
      WritesSnoc(Writes(h[..|h| - 1]), h[|h| - 1]);
    }
  }

  lemma DeletionsAgree(year: int, g: seq<Req>, log: seq<Req>, m: Message)
    requires log == Writes(g) && OneYearPerModel(year, log)
    ensures DeletesAlike(m, Replay(year, g), Replay(year, log))
  {
    var (s, t) := (Replay(year, g), Replay(year, log));
    if Deletes(m) && m.models[0] in Models(s) && m.models[0] in Models(t) {
      RemoveThroughYear(s, m.models[0], 0);
      RemoveThroughYear(t, m.models[0], 0);
      WritesOfWrites(g);
      var r := CarsComeFromWrites(year, g, FirstMatch(s, m.models[0]));
      var q := CarsComeFromWrites(year, log, FirstMatch(t, m.models[0]));
    }
  }

  /** Replicas that invoked the same writes hold the same cars of every year in the same order,
      and become identical once ordered, provided that no model spans two years. */
  lemma ReplicasAgree(year: int, g: seq<Req>, h: seq<Req>)
    requires Writes(g) == Writes(h) && OneYearPerModel(year, Writes(g))
    ensures YearEq(Replay(year, g), Replay(year, h))
    ensures SortByYear(Replay(year, g)) == SortByYear(Replay(year, h))
  {
    OrderingsLeaveNoTrace(year, g);
    OrderingsLeaveNoTrace(year, h);
    YearEqIffSameSorted(Replay(year, g), Replay(year, Writes(g)));
    YearEqIffSameSorted(Replay(year, h), Replay(year, Writes(h)));
    YearEqIffSameSorted(Replay(year, g), Replay(year, h));
  }

  // ---------------------------------------------------------------- when replicas agree

  /** Only cars of the collection are ever added. */
  ghost predicate AddsFrom(year: int, h: seq<Req>, cars: iset<Car>) {
    forall r :: r in h && Adds(year, r.msg) ==> r.msg.data.value in cars
  }

  ghost predicate AlwaysAgree(year: int, cars: iset<Car>) {
    forall g, h :: AddsFrom(year, g, cars) && AddsFrom(year, h, cars) && Writes(g) == Writes(h) ==>
      YearEq(Replay(year, g), Replay(year, h))
  }

  ghost predicate NoModelSpansTwoYears(year: int, cars: iset<Car>) {
    forall c, d :: c in cars && d in cars && Validated(year, c) && Validated(year, d) ==>
      c.modelo == d.modelo ==> c.ano == d.ano
  }

  /** The proviso cannot be weakened: replicas agree in all circumstances exactly when no model
      among the cars that may be added spans two years. */
  lemma AgreementIff(year: int, cars: iset<Car>)
    ensures AlwaysAgree(year, cars) <==> NoModelSpansTwoYears(year, cars)
  {
    if NoModelSpansTwoYears(year, cars) {
      forall g, h | AddsFrom(year, g, cars) && AddsFrom(year, h, cars) && Writes(g) == Writes(h)
        ensures YearEq(Replay(year, g), Replay(year, h))
      {
        forall r | r in Writes(g) ensures r in g {
          WritesMembers(g, r);
        }
        ReplicasAgree(year, g, h);
      }
    }
    if AlwaysAgree(year, cars) {
      forall c, d | c in cars && d in cars && Validated(year, c) && Validated(year, d) && c.modelo == d.modelo
        ensures c.ano == d.ano
      {
        if c.ano > d.ano {
          Divergence(year, c, d);
        } else if d.ano > c.ano {
          Divergence(year, d, c);
        }
      }
    }
  }

  function AddOf(id: nat, c: Car): Req {
    Req(id, Message(OP_ADD, CT_DATA, Some(c), 0, [], []))
  }

  function DelOf(id: nat, m: string): Req {
    Req(id, Message(OP_DEL, CT_MODEL, None, 0, [m], []))
  }

  function OrderOf(id: nat): Req {
    Req(id, WHOLE_LIST)
  }

  function WithoutOrdering(c: Car, d: Car): seq<Req> {
    [AddOf(0, c), AddOf(1, d), DelOf(2, c.modelo)]
  }

  function WithOrdering(c: Car, d: Car): seq<Req> {
    [AddOf(0, c), AddOf(1, d), OrderOf(3), DelOf(2, c.modelo)]
  }

  lemma ReplaySnoc(year: int, h: seq<Req>, r: Req)
    ensures Replay(year, h + [r]) == Effect(year, r.msg, Replay(year, h))
  {
    assert (h + [r])[..|h|] == h;
  }

  /** A newer car and then an older one of the same model are added and the model is deleted: one
      replica keeps the older car, and the one that was asked for its ordered list in between
      keeps the newer car. */
  lemma Divergence(year: int, c: Car, d: Car)
    requires Validated(year, c) && Validated(year, d) && c.modelo == d.modelo && c.ano > d.ano
    ensures Writes(WithoutOrdering(c, d)) == Writes(WithOrdering(c, d)) == WithoutOrdering(c, d)
    ensures AddsFrom(year, WithoutOrdering(c, d), iset{c, d}) && AddsFrom(year, WithOrdering(c, d), iset{c, d})
    ensures Replay(year, WithoutOrdering(c, d)) == [d]
    ensures Replay(year, WithOrdering(c, d)) == [c]
    ensures !YearEq([d], [c])
  {
    var (a, b, x, o) := (AddOf(0, c), AddOf(1, d), DelOf(2, c.modelo), OrderOf(3));
    var two := [] + [a] + [b];
    ReplayAdds(year, a, b, c, d);
    SortTwo(c, d);
    ReplaySnoc(year, two, x);
    ReplaySnoc(year, two, o);
    ReplaySnoc(year, two + [o], x);
    WritesSnoc([], a);
    WritesSnoc([] + [a], b);
    WritesSnoc(two, x);
    WritesSnoc(two, o);
    WritesSnoc(two + [o], x);
    assert WithoutOrdering(c, d) == two + [x] && WithOrdering(c, d) == two + [o] + [x];
    DifferentYears(c, d);
  }

  lemma DifferentYears(c: Car, d: Car)
    requires c.ano != d.ano
    ensures !YearEq([d], [c])
  {
    ByYearMembers([d], d.ano, d);
    ByYearMembers([c], d.ano, d);
    assert ByYear([d], d.ano) != ByYear([c], d.ano);
  }

  lemma ReplayAdds(year: int, a: Req, b: Req, c: Car, d: Car)
    requires Adds(year, a.msg) && a.msg.data.value == c && Adds(year, b.msg) && b.msg.data.value == d
    ensures Replay(year, [] + [a] + [b]) == [c, d]
  {
    ReplaySnoc(year, [], a);
    ReplaySnoc(year, [] + [a], b);
  }

  lemma SortTwo(c: Car, d: Car)
    requires c.ano > d.ano
    ensures SortByYear([c, d]) == [d, c]
  {
    assert [c, d][1..] == [d] && [d][1..] == [];
    assert SortByYear([d]) == Insert(d, []) == [d];
    assert SortByYear([c, d]) == Insert(c, [d]);
    assert Insert(c, [d]) == [d] + Insert(c, []);
  }
}
