/** What a server answers to each kind of request and what it does to its list, element by element
    and in the numbers that travel on the wire. */
module Answers {
  import opened Data
  import opened CarSeqs
  import opened Messages

  lemma SizeAnswer(year: int, m: Message, s: seq<Car>)
    requires m.opcode == 40
    ensures Reply(year, m, s) == m.(opcode := 41, cType := 50, result := |s|)
    ensures Effect(year, m, s) == s
  {
  }

  /** An accepted car is the last one of the list afterwards; a missing or invalid one is refused. */
  lemma AddAnswer(year: int, m: Message, s: seq<Car>)
    requires m.opcode == 10
    ensures var (r, t) := (Reply(year, m, s), Effect(year, m, s));
            if m.data.Some? && Validated(year, m.data.value)
            then r == m.(opcode := 11, cType := 70, result := 0) && t == s + [m.data.value]
            else r == m.(opcode := 99, cType := 70, result := -1) && t == s
  {
  }

  /** The first car of the brand, at `k`, as the list holds it; there is none if `k` is the length. */
  lemma GetAnswer(year: int, m: Message, s: seq<Car>, k: nat)
    requires m.opcode == 20 && k <= |s|
    requires (forall j :: 0 <= j < k ==> s[j].marca != m.result) && (k < |s| ==> s[k].marca == m.result)
    ensures Reply(year, m, s) ==
      if m.cType != 20 then m
      else if k < |s| then m.(opcode := 21, cType := 10, data := Some(s[k]))
      else m.(opcode := 99, cType := 70, result := -1)
    ensures Effect(year, m, s) == s
  {
    FirstByMarcaAt(s, m.result, k);
  }

  /** Exactly the cars of the year, in the order of the list. */
  lemma YearAnswer(year: int, m: Message, s: seq<Car>) returns (places: seq<nat>)
    requires m.opcode == 60 && m.result != -1
    ensures var r := Reply(year, m, s);
            && r == m.(opcode := 61, cType := 60, cars := r.cars)
            && |r.cars| == |places|
            && (forall j :: 0 <= j < |places| ==> places[j] < |s| && r.cars[j] == s[places[j]])
            && (forall i, j :: 0 <= i < j < |places| ==> places[i] < places[j])
            && (forall k: nat :: k < |s| ==> (k in places <==> s[k].ano == m.result))
    ensures Effect(year, m, s) == s
  {
    places := ByYearAt(s, m.result);
  }

  /** The whole list in order by year, cars of one year in their old order; the list itself is left
      in that order. */
  lemma WholeListAnswer(year: int, m: Message, s: seq<Car>)
    requires m.opcode == 60 && m.result == -1
    ensures var r := Reply(year, m, s);
            && r == m.(opcode := 61, cType := 60, cars := r.cars)
            && r.cars == Effect(year, m, s)
            && Sorted(r.cars) && multiset(r.cars) == multiset(s) && YearEq(r.cars, s)
  {
    SortIsStable(s);
  }

  lemma ModelsAnswer(year: int, m: Message, s: seq<Car>)
    requires m.opcode == 50
    ensures var r := Reply(year, m, s);
            && r == m.(opcode := 51, cType := 40, models := r.models)
            && |r.models| == |s| && forall k :: 0 <= k < |s| ==> r.models[k] == s[k].modelo
    ensures Effect(year, m, s) == s
  {
  }

  /** The first car of the model, at `k`, is gone and the rest of the list is as it was, with result 0;
      or there is none, with result 1. Anything but one model is an error. */
  lemma DelAnswer(year: int, m: Message, s: seq<Car>, k: nat)
    requires m.opcode == 30 && k <= |s|
    requires |m.models| == 1 ==> forall j :: 0 <= j < k ==> s[j].modelo != m.models[0]
    requires |m.models| == 1 && k < |s| ==> s[k].modelo == m.models[0]
    ensures var (r, t) := (Reply(year, m, s), Effect(year, m, s));
            if |m.models| != 1 then r == m.(opcode := 99, cType := 70, result := -1) && t == s
            else if k < |s| then r == m.(opcode := 31, cType := 50, result := 0) && t == s[..k] + s[k + 1..]
            else r == m.(opcode := 31, cType := 50, result := 1) && t == s
  {
    hide Models, RemoveFirst;
    if |m.models| == 1 {
      if k < |s| {
        RemoveFirstAt(s, m.models[0], k);
      } else {
        RemoveNothing(s, m.models[0]);
      }
    }
  }

  /** Everything else, including the request for an ordering that is only ever forwarded. */
  lemma OtherAnswer(year: int, m: Message, s: seq<Car>)
    requires m.opcode !in {10, 20, 30, 40, 50, 60}
    ensures Reply(year, m, s) == m.(opcode := 99, cType := 70, result := -1)
    ensures Effect(year, m, s) == s
  {
  }

  lemma {:induction false} FirstByMarcaAt(s: seq<Car>, marca: int, k: nat)
    requires k <= |s|
    requires (forall j :: 0 <= j < k ==> s[j].marca != marca) && (k < |s| ==> s[k].marca == marca)
    ensures FirstByMarca(s, marca) == if k < |s| then Some(s[k]) else None
  {
    if k > 0 {
      FirstByMarcaAt(s[1..], marca, k - 1);
    }
  }
}
