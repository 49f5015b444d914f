/** Sequences of cars: the mathematical lists that the linked list refines, and how
    ordering by year commutes with the other operations. */
module CarSeqs {
  import opened Data

  // ---------------------------------------------------------------- selection by year

  function ByYear(s: seq<Car>, y: int): seq<Car> {
    if s == [] then [] else (if s[0].ano == y then [s[0]] else []) + ByYear(s[1..], y)
  }

  /** Two lists agree year by year: the same cars of each year, in the same order. */
  ghost predicate YearEq(s: seq<Car>, t: seq<Car>) {
    forall y :: ByYear(s, y) == ByYear(t, y)
  }

  lemma ByYearNil(y: int)
    ensures ByYear([], y) == []
  {
  }

  lemma ByYearCons(c: Car, s: seq<Car>, y: int)
    ensures ByYear([c] + s, y) == (if c.ano == y then [c] else []) + ByYear(s, y)
  {
    assert ([c] + s)[1..] == s;
  }

  lemma {:induction false} ByYearConcat(s: seq<Car>, t: seq<Car>, y: int)
    ensures ByYear(s + t, y) == ByYear(s, y) + ByYear(t, y)
  {
    hide ByYear;
    if s == [] {
      ByYearNil(y);
      assert s + t == t;
    } else {
      var (c, rest) := (s[0], s[1..]);
      assert s == [c] + rest && s + t == [c] + (rest + t);
      ByYearConcat(rest, t, y);
      ByYearCons(c, rest, y);
      ByYearCons(c, rest + t, y);
    }
  }

  lemma {:induction false} ByYearMembers(s: seq<Car>, y: int, c: Car)
    ensures c in ByYear(s, y) <==> c in s && c.ano == y
  {
    if s == [] {
    } else {
      ByYearMembers(s[1..], y, c);
      assert c in s <==> c == s[0] || c in s[1..];
    }
  }

  /** The places of the cars of a year: all of them, in increasing order. */
  lemma {:induction false} ByYearAt(s: seq<Car>, y: int) returns (places: seq<nat>)
    ensures |places| == |ByYear(s, y)|
    ensures forall j :: 0 <= j < |places| ==> places[j] < |s| && ByYear(s, y)[j] == s[places[j]]
    ensures forall i, j :: 0 <= i < j < |places| ==> places[i] < places[j]
    ensures forall k: nat :: k < |s| ==> (k in places <==> s[k].ano == y)
  {
    if s == [] {
      places := [];
    } else {
      hide ByYear;
      var n := |s| - 1;
      places := ByYearAt(s[..n], y);
      assert s == s[..n] + [s[n]];
      ByYearConcat(s[..n], [s[n]], y);
      ByYearOne(s[n], y);
      if s[n].ano == y {
        places := places + [n];
      }
    }
  }

  lemma ByYearOne(c: Car, y: int)
    ensures ByYear([c], y) == if c.ano == y then [c] else []
  {
  }

  lemma YearEqConcat(s: seq<Car>, t: seq<Car>, u: seq<Car>)
    requires YearEq(s, t)
    ensures YearEq(s + u, t + u)
  {
    forall y ensures ByYear(s + u, y) == ByYear(t + u, y) {
      ByYearConcat(s, u, y);
      ByYearConcat(t, u, y);
    }
  }

  // ---------------------------------------------------------------- ordering by year

  ghost predicate Sorted(s: seq<Car>) {
    forall i, j :: 0 <= i < j < |s| ==> s[i].ano <= s[j].ano
  }

  function Insert(c: Car, s: seq<Car>): seq<Car> {
    if s == [] || c.ano <= s[0].ano then [c] + s else [s[0]] + Insert(c, s[1..])
  }

  /** The stable order by year. */
  function SortByYear(s: seq<Car>): seq<Car> {
    if s == [] then [] else Insert(s[0], SortByYear(s[1..]))
  }

  lemma SortedCons(c: Car, s: seq<Car>)
    requires Sorted(s) && forall k :: 0 <= k < |s| ==> c.ano <= s[k].ano
    ensures Sorted([c] + s)
  {
    var t := [c] + s;
    forall i, j | 0 <= i < j < |t| ensures t[i].ano <= t[j].ano {
      assert t[j] == s[j - 1];
      assert i > 0 ==> t[i] == s[i - 1];
    }
  }

  lemma {:induction false} InsertMultiset(c: Car, s: seq<Car>)
    ensures multiset(Insert(c, s)) == multiset{c} + multiset(s)
  {
    if s == [] || c.ano <= s[0].ano {
    } else {
      InsertMultiset(c, s[1..]);
      assert s == [s[0]] + s[1..];
    }
  }

  lemma {:induction false} InsertSorted(c: Car, s: seq<Car>)
    requires Sorted(s)
    ensures Sorted(Insert(c, s))
  {
    if s == [] {
    } else if c.ano <= s[0].ano {
      SortedCons(c, s);
    } else {
      var r := Insert(c, s[1..]);
      InsertSorted(c, s[1..]);
      InsertMultiset(c, s[1..]);
      forall k | 0 <= k < |r| ensures s[0].ano <= r[k].ano {
        assert r[k] in multiset(r);
        assert r[k] == c || r[k] in multiset(s[1..]);
      }
      SortedCons(s[0], r);
    }
  }

  lemma {:induction false} InsertByYear(c: Car, s: seq<Car>, y: int)
    ensures ByYear(Insert(c, s), y) == (if c.ano == y then [c] else []) + ByYear(s, y)
  {
    hide ByYear;
    if s == [] || c.ano <= s[0].ano {
      ByYearCons(c, s, y);
    } else {
      assert s == [s[0]] + s[1..];
      InsertByYear(c, s[1..], y);
      ByYearCons(s[0], s[1..], y);
      ByYearCons(s[0], Insert(c, s[1..]), y);
    }
  }

  lemma {:induction false} SortByYearKeepsYear(s: seq<Car>, y: int)
    ensures ByYear(SortByYear(s), y) == ByYear(s, y)
  {
    if s == [] {
    } else {
      SortByYearKeepsYear(s[1..], y);
      InsertByYear(s[0], SortByYear(s[1..]), y);
    }
  }

  lemma {:induction false} SortIsSorted(s: seq<Car>)
    ensures Sorted(SortByYear(s))
    ensures multiset(SortByYear(s)) == multiset(s)
  {
    if s == [] {
    } else {
      SortIsSorted(s[1..]);
      InsertSorted(s[0], SortByYear(s[1..]));
      InsertMultiset(s[0], SortByYear(s[1..]));
      assert s == [s[0]] + s[1..];
    }
  }

  /** Ordering sorts by year, permutes, and keeps the cars of each year in their old order. */
  lemma SortIsStable(s: seq<Car>)
    ensures Sorted(SortByYear(s))
    ensures multiset(SortByYear(s)) == multiset(s)
    ensures YearEq(SortByYear(s), s)
  {
    SortIsSorted(s);
    forall y ensures ByYear(SortByYear(s), y) == ByYear(s, y) {
      SortByYearKeepsYear(s, y);
    }
  }

  /** A sorted list is determined by its cars of each year. */
  lemma {:induction false} SortedUnique(s: seq<Car>, t: seq<Car>)
    requires Sorted(s) && Sorted(t) && YearEq(s, t)
    ensures s == t
  {
    var first := if t == [] then 0 else t[0].ano;
    assert ByYear(t, first) == ByYear(s, first);
    if s == [] {
    } else {
      var y := s[0].ano;
      assert ByYear(s, y) == ByYear(t, y);
      ByYearMembers(t, y, s[0]);
      ByYearMembers(s, t[0].ano, t[0]);
      assert ByYear(s, t[0].ano) == ByYear(t, t[0].ano);
      assert s[0] == ByYear(s, y)[0] == t[0];
      forall z ensures ByYear(s[1..], z) == ByYear(t[1..], z) {
        assert ByYear(s, z) == ByYear(t, z);
        assert s == [s[0]] + s[1..] && t == [t[0]] + t[1..];
        var h := if s[0].ano == z then [s[0]] else [];
        assert h + ByYear(s[1..], z) == h + ByYear(t[1..], z);
        assert ByYear(s[1..], z) == (h + ByYear(s[1..], z))[|h|..];
        assert ByYear(t[1..], z) == (h + ByYear(t[1..], z))[|h|..];
      }
      SortedUnique(s[1..], t[1..]);
    }
  }

  /** Lists agree year by year exactly when ordering makes them identical. */
  lemma YearEqIffSameSorted(s: seq<Car>, t: seq<Car>)
    ensures YearEq(s, t) <==> SortByYear(s) == SortByYear(t)
  {
    SortIsStable(s);
    SortIsStable(t);
    if YearEq(s, t) {
      forall y ensures ByYear(SortByYear(s), y) == ByYear(SortByYear(t), y) {
        assert ByYear(SortByYear(s), y) == ByYear(s, y) == ByYear(t, y) == ByYear(SortByYear(t), y);
      }
      SortedUnique(SortByYear(s), SortByYear(t));
    }
    if SortByYear(s) == SortByYear(t) {
      forall y ensures ByYear(s, y) == ByYear(t, y) {
        assert ByYear(s, y) == ByYear(SortByYear(s), y) == ByYear(SortByYear(t), y) == ByYear(t, y);
      }
    }
  }

  /** Year-equivalent lists are permutations of one another. */
  lemma YearEqMultiset(s: seq<Car>, t: seq<Car>)
    requires YearEq(s, t)
    ensures multiset(s) == multiset(t)
  {
    YearEqIffSameSorted(s, t);
    SortIsStable(s);
    SortIsStable(t);
  }

  // ---------------------------------------------------------------- inversions

  function OlderThan(s: seq<Car>, y: int): nat {
    if s == [] then 0 else (if s[0].ano < y then 1 else 0) + OlderThan(s[1..], y)
  }

  /** The number of pairs that stand in the wrong order. */
  function Inversions(s: seq<Car>): nat {
    if s == [] then 0 else OlderThan(s[1..], s[0].ano) + Inversions(s[1..])
  }

  function SwapNext(s: seq<Car>, k: nat): seq<Car>
    requires k + 1 < |s|
  {
    s[k := s[k + 1]][k + 1 := s[k]]
  }

  lemma {:induction false} OlderThanSwap(s: seq<Car>, k: nat, y: int)
    requires k + 1 < |s|
    ensures OlderThan(SwapNext(s, k), y) == OlderThan(s, y)
  {
    var t := SwapNext(s, k);
    if k == 0 {
      assert t[1..][1..] == s[1..][1..];
      assert OlderThan(t[1..], y) == (if s[0].ano < y then 1 else 0) + OlderThan(s[1..][1..], y);
    } else {
      assert t[1..] == SwapNext(s[1..], k - 1);
      OlderThanSwap(s[1..], k - 1, y);
    }
  }

  /** Exchanging two neighbours that stand in the wrong order removes exactly one inversion
      and leaves the cars of every single year where they were. */
  lemma {:induction false} SwapNeighbours(s: seq<Car>, k: nat)
    requires k + 1 < |s| && s[k].ano > s[k + 1].ano
    ensures Inversions(SwapNext(s, k)) == Inversions(s) - 1
    ensures YearEq(SwapNext(s, k), s)
  {
    var t := SwapNext(s, k);
    if k == 0 {
      var rest := s[1..][1..];
      assert t[1..][1..] == rest;
      assert OlderThan(t[1..], t[0].ano) == OlderThan(rest, t[0].ano);
      assert Inversions(t[1..]) == OlderThan(rest, s[0].ano) + Inversions(rest);
      assert OlderThan(s[1..], s[0].ano) == 1 + OlderThan(rest, s[0].ano);
      forall y ensures ByYear(t, y) == ByYear(s, y) {
        assert ByYear(t[1..], y) == (if s[0].ano == y then [s[0]] else []) + ByYear(rest, y);
        assert ByYear(s[1..], y) == (if s[1].ano == y then [s[1]] else []) + ByYear(rest, y);
      }
    } else {
      assert t[1..] == SwapNext(s[1..], k - 1);
      SwapNeighbours(s[1..], k - 1);
      OlderThanSwap(s[1..], k - 1, s[0].ano);
    }
  }

  lemma {:induction false} SortedHasNoInversions(s: seq<Car>)
    requires Sorted(s)
    ensures Inversions(s) == 0
  {
    if s == [] {
    } else {
      NoneOlder(s[1..], s[0].ano);
      SortedHasNoInversions(s[1..]);
    }
  }

  lemma {:induction false} NoneOlder(s: seq<Car>, y: int)
    requires forall k :: 0 <= k < |s| ==> y <= s[k].ano
    ensures OlderThan(s, y) == 0
  {
    if s == [] {
    } else {
      NoneOlder(s[1..], y);
    }
  }

  // ---------------------------------------------------------------- models and removal

  function Models(s: seq<Car>): multiset<string> {
    if s == [] then multiset{} else multiset{s[0].modelo} + Models(s[1..])
  }

  function ModelList(s: seq<Car>): seq<string> {
    seq(|s|, k requires 0 <= k < |s| => s[k].modelo)
  }

  function FirstByMarca(s: seq<Car>, marca: int): Option<Car> {
    if s == [] then None else if s[0].marca == marca then Some(s[0]) else FirstByMarca(s[1..], marca)
  }

  /** The first car of model `m`. */
  function FirstMatch(s: seq<Car>, m: string): Car
    requires m in Models(s)
  {
    if s[0].modelo == m then s[0] else FirstMatch(s[1..], m)
  }

  function RemoveFirst(s: seq<Car>, m: string): seq<Car> {
    if s == [] then [] else if s[0].modelo == m then s[1..] else [s[0]] + RemoveFirst(s[1..], m)
  }

  lemma {:induction false} ModelsConcat(s: seq<Car>, t: seq<Car>)
    ensures Models(s + t) == Models(s) + Models(t)
  {
    if s == [] {
      assert s + t == t;
    } else {
      assert (s + t)[1..] == s[1..] + t;
      ModelsConcat(s[1..], t);
    }
  }

  lemma {:induction false} ModelsMembers(s: seq<Car>, m: string)
    ensures m in Models(s) <==> exists k :: 0 <= k < |s| && s[k].modelo == m
  {
    if s == [] {
    } else {
      ModelsMembers(s[1..], m);
      if k :| 0 <= k < |s| && s[k].modelo == m {
        assert k == 0 || s[1..][k - 1].modelo == m;
      }
      if m in Models(s[1..]) {
        var k :| 0 <= k < |s[1..]| && s[1..][k].modelo == m;
        assert s[k + 1].modelo == m;
      }
    }
  }

  lemma {:induction false} ModelsInsert(c: Car, s: seq<Car>)
    ensures Models(Insert(c, s)) == multiset{c.modelo} + Models(s)
  {
    if s == [] || c.ano <= s[0].ano {
      assert ([c] + s)[1..] == s;
    } else {
      ModelsInsert(c, s[1..]);
      assert ([s[0]] + Insert(c, s[1..]))[1..] == Insert(c, s[1..]);
    }
  }

  lemma {:induction false} ModelsSort(s: seq<Car>)
    ensures Models(SortByYear(s)) == Models(s)
    ensures |SortByYear(s)| == |s|
  {
    if s == [] {
    } else {
      ModelsSort(s[1..]);
      ModelsInsert(s[0], SortByYear(s[1..]));
      ModelsSize(s);
      ModelsSize(SortByYear(s));
    }
  }

  lemma {:induction false} ModelsSize(s: seq<Car>)
    ensures |Models(s)| == |s|
  {
    if s == [] {
    } else {
      ModelsSize(s[1..]);
    }
  }

  /** Removal takes away exactly one car of the model, or nothing at all. */
  lemma {:induction false} ModelsRemove(s: seq<Car>, m: string)
    ensures Models(RemoveFirst(s, m)) == Models(s) - multiset{m}
    ensures m !in Models(s) ==> RemoveFirst(s, m) == s
  {
    if s == [] {
    } else {
      hide Models, RemoveFirst;
      var (c, rest) := (s[0], s[1..]);
      assert s == [c] + rest;
      RemoveCons(c, rest, m);
      if c.modelo != m {
        ModelsRemove(rest, m);
        RemoveCons(c, RemoveFirst(rest, m), m);
      }
    }
  }

  lemma RemoveCons(c: Car, s: seq<Car>, m: string)
    ensures RemoveFirst([c] + s, m) == if c.modelo == m then s else [c] + RemoveFirst(s, m)
    ensures Models([c] + s) == multiset{c.modelo} + Models(s)
  {
    assert ([c] + s)[1..] == s;
  }

  /** What is removed is the first match, and nothing when there is none. */
  lemma {:induction false} RemoveFirstAt(s: seq<Car>, m: string, k: nat)
    requires k < |s| && s[k].modelo == m && forall j :: 0 <= j < k ==> s[j].modelo != m
    ensures m in Models(s) && RemoveFirst(s, m) == s[..k] + s[k + 1..]
  {
    if k > 0 {
      RemoveFirstAt(s[1..], m, k - 1);
      assert s[..k] + s[k + 1..] == [s[0]] + (s[1..][..k - 1] + s[1..][k..]);
    }
  }

  lemma RemoveNothing(s: seq<Car>, m: string)
    requires forall j :: 0 <= j < |s| ==> s[j].modelo != m
    ensures m !in Models(s) && RemoveFirst(s, m) == s
  {
    ModelsMembers(s, m);
    ModelsRemove(s, m);
  }

  /** Removal seen through one year: it acts on the year of the first match only. */
  lemma {:induction false} RemoveThroughYear(s: seq<Car>, m: string, y: int)
    requires m in Models(s)
    ensures FirstMatch(s, m).modelo == m && FirstMatch(s, m) in s
    ensures ByYear(RemoveFirst(s, m), y)
         == if FirstMatch(s, m).ano == y then RemoveFirst(ByYear(s, y), m) else ByYear(s, y)
    ensures FirstMatch(s, m).ano == y ==> m in Models(ByYear(s, y))
  {
    var tail := ByYear(s[1..], y);
    RemoveCons(s[0], tail, m);
    if s[0].modelo == m {
      assert s[0].ano != y ==> ByYear(s, y) == tail;
    } else {
      RemoveThroughYear(s[1..], m, y);
      ByYearCons(s[0], RemoveFirst(s[1..], m), y);
      assert ByYear(s, y) == if s[0].ano == y then [s[0]] + tail else tail;
    }
  }

  /** Removing one model from two year-equivalent lists keeps them year-equivalent
      exactly when the two first matches are of the same year. */
  lemma RemoveKeepsYearEqIff(s: seq<Car>, t: seq<Car>, m: string)
    requires YearEq(s, t) && m in Models(s) && m in Models(t)
    ensures YearEq(RemoveFirst(s, m), RemoveFirst(t, m))
       <==> FirstMatch(s, m).ano == FirstMatch(t, m).ano
  {
    var (y, z) := (FirstMatch(s, m).ano, FirstMatch(t, m).ano);
    if y == z {
      forall x ensures ByYear(RemoveFirst(s, m), x) == ByYear(RemoveFirst(t, m), x) {
        RemoveThroughYear(s, m, x);
        RemoveThroughYear(t, m, x);
        assert ByYear(s, x) == ByYear(t, x);
      }
    } else {
      RemoveThroughYear(s, m, y);
      RemoveThroughYear(t, m, y);
      assert ByYear(s, y) == ByYear(t, y);
      ModelsRemove(ByYear(s, y), m);
      assert ByYear(RemoveFirst(s, m), y) != ByYear(RemoveFirst(t, m), y);
    }
  }

  lemma YearEqModels(s: seq<Car>, t: seq<Car>, m: string)
    requires YearEq(s, t)
    ensures m in Models(s) <==> m in Models(t)
  {
    YearEqMultiset(s, t);
    ModelsMembers(s, m);
    ModelsMembers(t, m);
    if m in Models(s) {
      var k :| 0 <= k < |s| && s[k].modelo == m;
      assert s[k] in multiset(t);
    }
    if m in Models(t) {
      var k :| 0 <= k < |t| && t[k].modelo == m;
      assert t[k] in multiset(s);
    }
  }

  /** In a sorted list the first match is the oldest one. */
  lemma {:induction false} FirstMatchOfSorted(s: seq<Car>, m: string)
    requires Sorted(s) && m in Models(s)
    ensures FirstMatch(s, m) in s && FirstMatch(s, m).modelo == m
    ensures forall c :: c in s && c.modelo == m ==> FirstMatch(s, m).ano <= c.ano
  {
    if s[0].modelo == m {
    } else {
      FirstMatchOfSorted(s[1..], m);
    }
  }

  /** Deleting after an ordering and deleting without one leave the same cars of every year
      exactly when the first car of the model is already its oldest. */
  lemma SortThenRemoveIff(s: seq<Car>, m: string)
    requires m in Models(s)
    ensures YearEq(RemoveFirst(SortByYear(s), m), RemoveFirst(s, m))
       <==> forall c :: c in s && c.modelo == m ==> FirstMatch(s, m).ano <= c.ano
  {
    var t := SortByYear(s);
    SortIsStable(s);
    ModelsSort(s);
    RemoveKeepsYearEqIff(t, s, m);
    FirstMatchOfSorted(t, m);
    RemoveThroughYear(s, m, FirstMatch(s, m).ano);
    var (first, oldest) := (FirstMatch(s, m), FirstMatch(t, m));
    assert first in multiset(t) && oldest in multiset(s);
    if first.ano == oldest.ano {
      forall c | c in s && c.modelo == m ensures first.ano <= c.ano {
        assert c in multiset(s);
        assert c in multiset(t);
      }
    }
  }
}
