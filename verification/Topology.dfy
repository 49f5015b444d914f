/** How servers and clients find their places in the chain, each for itself, from the unordered
    list of the children of the chain's node. */
module Topology {
  import opened Data

  const INT_MAX := 0x7FFF_FFFF
  const INT_MIN := -0x8000_0000

  /** For each child the sequence number parsed from its name, if its name has one. */
  type Children = seq<Option<int>>

  ghost function Numbers(children: Children): set<int> {
    set c | c in children && c.Some? :: c.value
  }

  lemma NumbersAreParsed(children: Children, x: int)
    ensures x in Numbers(children) <==> exists i :: 0 <= i < |children| && children[i] == Some(x)
  {
    assert Some(x) in children <==> exists i :: 0 <= i < |children| && children[i] == Some(x);
  }

  // ---------------------------------------------------------------- neighbours in a set

  lemma NonEmpty(s: set<int>)
    requires s != {}
    ensures exists y :: y in s
  {
    assert (forall y :: y !in s) ==> s == {};
  }

  ghost function Least(s: set<int>): (x: int)
    requires s != {}
    ensures x in s && forall y :: y in s ==> x <= y
  {
    NonEmpty(s);
    var y :| y in s;
    if s == {y} then y else
      assert s == {y} + (s - {y});
      var x := Least(s - {y});
      if y < x then y else x
  }

  ghost function Greatest(s: set<int>): (x: int)
    requires s != {}
    ensures x in s && forall y :: y in s ==> y <= x
  {
    NonEmpty(s);
    var y :| y in s;
    if s == {y} then y else
      assert s == {y} + (s - {y});
      var x := Greatest(s - {y});
      if y > x then y else x
  }

  ghost function Above(s: set<int>, x: int): set<int> {
    set y | y in s && y > x
  }

  ghost function Below(s: set<int>, x: int): set<int> {
    set y | y in s && y < x
  }

  ghost function Succ(s: set<int>, x: int): Option<int> {
    if Above(s, x) == {} then None else Some(Least(Above(s, x)))
  }

  ghost function Pred(s: set<int>, x: int): Option<int> {
    if Below(s, x) == {} then None else Some(Greatest(Below(s, x)))
  }

  // ---------------------------------------------------------------- the searches

  /** The child that holds `r`, or -1 for none. */
  ghost predicate Locates(children: Children, index: int, r: Option<int>) {
    if r.None? then index == -1 else 0 <= index < |children| && children[index] == r
  }

  ghost predicate SmallestSoFar(children: Children, i: nat, lower: int, next: int, nextIndex: int)
    requires i <= |children|
  {
    && (nextIndex == -1 ==> next == INT_MAX)
    && (nextIndex != -1 ==> 0 <= nextIndex < i && children[nextIndex] == Some(next) && lower < next < INT_MAX)
    && (forall j :: 0 <= j < i && children[j].Some? && lower < children[j].value ==> next <= children[j].value)
  }

  /** The child with the smallest number above `lower`; INT_MAX itself is never chosen. */
  method FindSuccessor(children: Children, lower: int) returns (nextIndex: int)
    ensures Locates(children, nextIndex, Succ(Below(Numbers(children), INT_MAX), lower))
    ensures nextIndex == -1 ==>
      forall j :: 0 <= j < |children| && children[j].Some? ==> children[j].value <= lower || children[j].value >= 0x7FFF_FFFF
    ensures nextIndex != -1 ==>
      && 0 <= nextIndex < |children| && children[nextIndex].Some?
      && lower < children[nextIndex].value < 0x7FFF_FFFF
      && forall j :: 0 <= j < |children| && children[j].Some? ==>
           children[j].value <= lower || children[nextIndex].value <= children[j].value
  {
    var next := INT_MAX;
    nextIndex := -1;
    for i := 0 to |children|
      invariant SmallestSoFar(children, i, lower, next, nextIndex)
    {
      match children[i]
      case None =>
      case Some(num) =>
        if lower < num && num < next {
          next := num;
          nextIndex := i;
        }
    }
    ghost var s := Below(Numbers(children), INT_MAX);
    if nextIndex != -1 {
      assert children[nextIndex] in children;
      assert next in Above(s, lower);
    }
    forall y | y in Above(s, lower) ensures nextIndex != -1 && next <= y {
      var j :| 0 <= j < |children| && children[j] == Some(y);
    }
  }

  ghost predicate LargestSoFar(children: Children, i: nat, upper: int, prev: int, prevIndex: int)
    requires i <= |children|
  {
    && (prevIndex == -1 ==> prev == INT_MIN)
    && (prevIndex != -1 ==> 0 <= prevIndex < i && children[prevIndex] == Some(prev) && INT_MIN < prev < upper)
    && (forall j :: 0 <= j < i && children[j].Some? && children[j].value < upper ==> children[j].value <= prev)
  }

  /** The child with the largest number below `upper`; INT_MIN itself is never chosen. */
  method FindPredecessor(children: Children, upper: int) returns (prevIndex: int)
    ensures Locates(children, prevIndex, Pred(Above(Numbers(children), INT_MIN), upper))
    ensures prevIndex == -1 ==>
      forall j :: 0 <= j < |children| && children[j].Some? ==> children[j].value >= upper || children[j].value <= -0x8000_0000
    ensures prevIndex != -1 ==>
      && 0 <= prevIndex < |children| && children[prevIndex].Some?
      && -0x8000_0000 < children[prevIndex].value < upper
      && forall j :: 0 <= j < |children| && children[j].Some? ==>
           children[j].value >= upper || children[j].value <= children[prevIndex].value
  {
    var prev := INT_MIN;
    prevIndex := -1;
    for i := 0 to |children|
      invariant LargestSoFar(children, i, upper, prev, prevIndex)
    {
      match children[i]
      case None =>
      case Some(num) =>
        if num < upper && prev < num {
          prev := num;
          prevIndex := i;
        }
    }
    ghost var s := Above(Numbers(children), INT_MIN);
    if prevIndex != -1 {
      assert children[prevIndex] in children;
      assert prev in Below(s, upper);
    }
    forall y | y in Below(s, upper) ensures prevIndex != -1 && y <= prev {
      var j :| 0 <= j < |children| && children[j] == Some(y);
    }
  }

  /** A client's one pass over the children, for both ends of the chain at once. */
  method FindEnds(children: Children) returns (minIndex: nat, maxIndex: nat)
    requires |children| > 0
    ensures minIndex < |children| && maxIndex < |children|
    ensures var s := Below(Numbers(children), INT_MAX);
            if s == {} then minIndex == 0 else children[minIndex] == Some(Least(s))
    ensures var s := Above(Numbers(children), INT_MIN);
            if s == {} then maxIndex == 0 else children[maxIndex] == Some(Greatest(s))
    ensures forall j :: 0 <= j < |children| && children[j].Some? && children[j].value < 0x7FFF_FFFF ==>
      children[minIndex].Some? && children[minIndex].value <= children[j].value
    ensures forall j :: 0 <= j < |children| && children[j].Some? && children[j].value > -0x8000_0000 ==>
      children[maxIndex].Some? && children[j].value <= children[maxIndex].value
  {
    var (min, max) := (INT_MAX, INT_MIN);
    minIndex, maxIndex := 0, 0;
    for i := 0 to |children|
      invariant minIndex < |children| && maxIndex < |children|
      invariant min <= INT_MAX && (if min == INT_MAX then minIndex == 0 else children[minIndex] == Some(min))
      invariant INT_MIN <= max && (if max == INT_MIN then maxIndex == 0 else children[maxIndex] == Some(max))
      invariant forall j :: 0 <= j < i && children[j].Some? ==> min <= children[j].value <= max
    {
      match children[i]
      case None =>
      case Some(num) =>
        if num < min {
          min := num;
          minIndex := i;
        }
        if num > max {
          max := num;
          maxIndex := i;
        }
    }
    ghost var s := Numbers(children);
    assert children[minIndex] in children && children[maxIndex] in children;
    forall y | y in s ensures min <= y <= max {
      var j :| 0 <= j < |children| && children[j] == Some(y);
    }
    assert min < INT_MAX ==> min in Below(s, INT_MAX);
    assert max > INT_MIN ==> max in Above(s, INT_MIN);
  }

  /** A server's link to its successor, named by the successor's number. */
  class ServerLink {
    const self: int
    var next: Option<int>

    constructor (number: int)
      ensures self == number && next == None
    {
      self, next := number, None;
    }

    /** Called with the children whenever they change. `connected` says whether looking up the
        chosen child's address and connecting to it succeed. */
    method Update(children: Children, connected: bool)
      modifies this
      ensures next ==
        if |children| == 0 then old(next)
        else if |children| == 1 || !connected then None
        else Succ(Below(Numbers(children), INT_MAX), self)
      ensures |children| > 1 && connected && next == None ==>
        forall j :: 0 <= j < |children| && children[j].Some? ==> children[j].value <= self || children[j].value >= 0x7FFF_FFFF
      ensures |children| > 1 && connected && next.Some? ==>
        && next in children && self < next.value < 0x7FFF_FFFF
        && forall j :: 0 <= j < |children| && children[j].Some? ==>
             children[j].value <= self || next.value <= children[j].value
    {
      if |children| == 0 {
        return;
      }
      if next != None {
        next := None;
      }
      if |children| > 1 {
        var nextIndex := FindSuccessor(children, self);
        if nextIndex != -1 && connected {
          next := children[nextIndex];
        }
      }
    }
  }

  // ---------------------------------------------------------------- the whole chain

  /** All numbers are ones that the searches can find. */
  ghost predicate InRange(s: set<int>) {
    forall x :: x in s ==> INT_MIN < x < INT_MAX
  }

  lemma InRangeFound(s: set<int>)
    requires InRange(s)
    ensures Below(s, INT_MAX) == s == Above(s, INT_MIN)
  {
  }

  ghost predicate Increasing(p: seq<int>) {
    forall i, j :: 0 <= i < j < |p| ==> p[i] < p[j]
  }

  /** Each number on the path has the next one as its successor, and the last one has none. */
  ghost predicate LinkedPath(s: set<int>, p: seq<int>) {
    forall i :: 0 <= i < |p| ==> Succ(s, p[i]) == NextOn(p, i)
  }

  function NextOn(p: seq<int>, i: nat): Option<int> {
    if i + 1 < |p| then Some(p[i + 1]) else None
  }

  /** The servers met by following successors from `x`. */
  ghost function Follow(s: set<int>, x: int): seq<int>
    decreases |Above(s, x)|
  {
    match Succ(s, x)
    case None => [x]
    case Some(y) =>
      AboveShrinks(s, x, y);
      [x] + Follow(s, y)
  }

  lemma AboveShrinks(s: set<int>, x: int, y: int)
    requires Succ(s, x) == Some(y)
    ensures Above(s, y) == Above(s, x) - {y} && |Above(s, y)| < |Above(s, x)|
  {
    assert y in Above(s, x);
  }

  lemma {:induction false} FollowFrom(s: set<int>, x: int)
    requires x in s
    ensures var p := Follow(s, x);
            && |p| > 0 && p[0] == x && Increasing(p)
            && (forall y :: y in p <==> y in s && x <= y)
            && Succ(s, p[|p| - 1]) == None
    decreases |Above(s, x)|
  {
    match Succ(s, x)
    case None =>
      assert forall y :: y in s && x < y ==> y in Above(s, x);
    case Some(y) =>
      AboveShrinks(s, x, y);
      assert y in Above(s, x);
      FollowFrom(s, y);
      var rest := Follow(s, y);
      forall z ensures z in Follow(s, x) <==> z in s && x <= z {
        assert z in Follow(s, x) <==> z == x || z in rest;
        assert z in s && x < z ==> z in Above(s, x);
      }
      assert forall j :: 0 < j < |Follow(s, x)| ==> Follow(s, x)[j] == rest[j - 1] && rest[j - 1] in rest;
  }

  lemma {:induction false} FollowIsLinked(s: set<int>, x: int)
    ensures Follow(s, x) != [] && Follow(s, x)[0] == x && LinkedPath(s, Follow(s, x))
    decreases |Above(s, x)|
  {
    match Succ(s, x)
    case None =>
    case Some(y) =>
      AboveShrinks(s, x, y);
      FollowIsLinked(s, y);
      LinkedCons(s, x, Follow(s, y));
  }

  lemma LinkedCons(s: set<int>, x: int, p: seq<int>)
    requires LinkedPath(s, p) && p != [] && Succ(s, x) == Some(p[0])
    ensures LinkedPath(s, [x] + p)
  {
    var q := [x] + p;
    forall i | 0 <= i < |q| ensures Succ(s, q[i]) == NextOn(q, i) {
      assert i > 0 ==> Succ(s, p[i - 1]) == NextOn(p, i - 1);
    }
  }

  /** From the head that clients choose, following the successor that each server chooses visits
      every server exactly once, in increasing order, and ends at the tail that clients choose. */
  lemma OneChain(s: set<int>)
    requires s != {}
    ensures var p := Follow(s, Least(s));
            && |p| == |s| && Increasing(p) && (forall x :: x in p <==> x in s)
            && p[0] == Least(s) && p[|p| - 1] == Greatest(s) && LinkedPath(s, p)
  {
    var p := Follow(s, Least(s));
    FollowFrom(s, Least(s));
    FollowIsLinked(s, Least(s));
    assert p[|p| - 1] in p;
    assert Greatest(s) !in Above(s, p[|p| - 1]);
    IncreasingSize(p, s);
  }

  /** The same for the sets that the searches see of an unordered child list: the client's head
      and tail and the servers' own choices fit together. */
  lemma ChildrenFormOneChain(children: Children)
    requires Numbers(children) != {} && InRange(Numbers(children))
    ensures var (all, low, high) :=
              (Numbers(children), Below(Numbers(children), INT_MAX), Above(Numbers(children), INT_MIN));
            && low == high == all
            && var p := Follow(low, Least(low));
            && |p| == |all| && Increasing(p) && (forall x :: x in p <==> x in all)
            && p[0] == Least(low) && p[|p| - 1] == Greatest(high) && LinkedPath(low, p)
  {
    InRangeFound(Numbers(children));
    OneChain(Numbers(children));
  }

  lemma {:induction false} IncreasingSize(p: seq<int>, s: set<int>)
    requires Increasing(p) && forall x :: x in p <==> x in s
    ensures |p| == |s|
  {
    if p == [] {
      assert forall x :: x in s ==> x in p;
      assert s == {};
    } else {
      var (front, last) := (p[..|p| - 1], p[|p| - 1]);
      assert p == front + [last];
      assert last !in front;
      IncreasingSize(front, s - {last});
    }
  }

  /** The predecessor that a joining server copies from is the server that links to it. */
  lemma PredInvertsSucc(s: set<int>, x: int, y: int)
    requires x in s && y in s
    ensures Succ(s, x) == Some(y) <==> Pred(s, y) == Some(x)
  {
    if Succ(s, x) == Some(y) {
      assert y in Above(s, x) && x in Below(s, y);
      forall z | z in Below(s, y) ensures z <= x {
        assert z > x ==> z in Above(s, x);
      }
    }
    if Pred(s, y) == Some(x) {
      assert x in Below(s, y) && y in Above(s, x);
      forall z | z in Above(s, x) ensures y <= z {
        assert z < y ==> z in Below(s, y);
      }
    }
  }

  /** The head is the one server that no other links to, the tail the one that links to none. */
  lemma EndsOfTheChain(s: set<int>, x: int)
    requires x in s
    ensures x == Least(s) <==> forall y :: y in s ==> Succ(s, y) != Some(x)
    ensures x == Greatest(s) <==> Succ(s, x) == None
  {
    if x != Least(s) {
      assert Least(s) in Below(s, x);
      var p := Greatest(Below(s, x));
      PredInvertsSucc(s, p, x);
    } else {
      forall y | y in s ensures Succ(s, y) != Some(x) {
        assert x !in Above(s, y);
      }
    }
    assert x != Greatest(s) ==> Greatest(s) in Above(s, x);
  }

  // ---------------------------------------------------------------- membership changes

  /** A new child changes the successor of its predecessor only, to itself. */
  lemma InsertChangesOneLink(s: set<int>, k: int, x: int)
    requires k !in s && x in s
    ensures Succ(s + {k}, x) == if Pred(s + {k}, k) == Some(x) then Some(k) else Succ(s, x)
    ensures Pred(s + {k}, k) == Some(x) ==> Succ(s + {k}, k) == Succ(s, x)
  {
    var t := s + {k};
    PredInvertsSucc(t, x, k);
    if Pred(t, k) == Some(x) {
      assert x in Below(t, k);
      assert Above(t, k) == Above(s, x) by {
        forall z | z in Above(s, x) ensures z in Above(t, k) {
          assert z < k ==> z in Below(t, k);
        }
      }
    } else if Succ(s, x) == None {
      assert Above(t, x) <= {k};
      assert Above(t, x) != {} ==> Above(t, x) == {k};
    } else {
      var y := Succ(s, x).value;
      assert y in Above(s, x) && y in Above(t, x);
      assert forall z :: z in Above(t, x) ==> z == k || z in Above(s, x);
      var l := Succ(t, x).value;
      assert l in Above(t, x) && l != k;
      assert l in Above(s, x);
    }
  }

  datatype Change = Enter(k: int) | Leave(k: int)

  ghost function Members(s: set<int>, c: Change): set<int> {
    match c
    case Enter(k) => s + {k}
    case Leave(k) => s - {k}
  }

  /** Every member's link is its successor. */
  ghost predicate Linked(s: set<int>, links: map<int, Option<int>>) {
    links.Keys == s && forall x :: x in s ==> links[x] == Succ(s, x)
  }

  /** After a change only the newcomer and the predecessor of the changed child search again. */
  ghost function Relink(s: set<int>, links: map<int, Option<int>>, c: Change): map<int, Option<int>>
    requires links.Keys == s
  {
    var t := Members(s, c);
    map x | x in t :: if x !in s || Pred(s + {c.k}, c.k) == Some(x) then Succ(t, x) else links[x]
  }

  /** Searching again in these places only is enough: the links make up the one chain again. */
  lemma RelinkKeepsChain(s: set<int>, links: map<int, Option<int>>, c: Change)
    requires Linked(s, links) && (c.Enter? <==> c.k !in s)
    ensures Linked(Members(s, c), Relink(s, links, c))
    ensures Members(s, c) == match c case Enter(k) => s + {k} case Leave(k) => s - {k}
    ensures forall x :: x in Members(s, c) && x in s && Pred(s + {c.k}, c.k) != Some(x) ==>
      Relink(s, links, c)[x] == links[x]
  {
    var t := Members(s, c);
    forall x | x in t && x in s ensures Relink(s, links, c)[x] == Succ(t, x) {
      if c.Enter? {
        InsertChangesOneLink(s, c.k, x);
      } else {
        InsertChangesOneLink(t, c.k, x);
        assert t + {c.k} == s == s + {c.k};
      }
    }
  }

  ghost function MembersAfter(s: set<int>, cs: seq<Change>): set<int> {
    if cs == [] then s else Members(MembersAfter(s, cs[..|cs| - 1]), cs[|cs| - 1])
  }

  ghost predicate Sensible(s: set<int>, cs: seq<Change>) {
    forall j :: 0 <= j < |cs| ==> (cs[j].Enter? <==> cs[j].k !in MembersAfter(s, cs[..j]))
  }

  ghost function LinksAfter(s: set<int>, links: map<int, Option<int>>, cs: seq<Change>): (res: map<int, Option<int>>)
    requires links.Keys == s
    ensures res.Keys == MembersAfter(s, cs)
  {
    if cs == [] then links
    else var front := cs[..|cs| - 1];
         Relink(MembersAfter(s, front), LinksAfter(s, links, front), cs[|cs| - 1])
  }

  /** However many servers come and go, the links stay those of one complete chain. */
  lemma {:induction false} ChangesKeepChain(s: set<int>, links: map<int, Option<int>>, cs: seq<Change>)
    requires Linked(s, links) && Sensible(s, cs)
    ensures Linked(MembersAfter(s, cs), LinksAfter(s, links, cs))
  {
    if cs == [] {
    } else {
      var front := cs[..|cs| - 1];
      forall j | 0 <= j < |front| ensures front[j].Enter? <==> front[j].k !in MembersAfter(s, front[..j]) {
        assert front[..j] == cs[..j] && front[j] == cs[j];
      }
      ChangesKeepChain(s, links, front);
      RelinkKeepsChain(MembersAfter(s, front), LinksAfter(s, links, front), cs[|cs| - 1]);
    }
  }
}
