/** The table of connected clients and the count that limits them. The count is kept apart from
    the table, by threads that register themselves after they were admitted. */
module ClientSlots {

  const NUM_MAX_CLIENTS := 6

  /** What the main loop asks before it admits a client. */
  predicate Busy(numClients: int) {
    numClients >= NUM_MAX_CLIENTS
  }

  /** A socket of -1 marks a free slot; its thread number is left over and means nothing. */
  datatype Slot = Slot(socket: int, tid: nat)

  function FirstFree(s: seq<Slot>): (k: nat)
    ensures k <= |s|
    ensures forall j :: 0 <= j < k ==> s[j].socket != -1
    ensures k < |s| ==> s[k].socket == -1
  {
    if s == [] || s[0].socket == -1 then 0 else FirstFree(s[1..]) + 1
  }

  function Occupied(s: seq<Slot>): (n: nat)
    ensures n <= |s|
  {
    if s == [] then 0 else Occupied(s[..|s| - 1]) + if s[|s| - 1].socket != -1 then 1 else 0
  }

  /** A client registered in the first free slot, if there is one. */
  function Entered(s: seq<Slot>, socket: int, tid: nat): (t: seq<Slot>)
    ensures |t| == |s|
  {
    if FirstFree(s) < |s| then s[FirstFree(s) := Slot(socket, tid)] else s
  }

  function Cleared(s: seq<Slot>, socket: int, tid: nat): (t: seq<Slot>)
    ensures |t| == |s|
  {
    seq(|s|, k requires 0 <= k < |s| => if s[k] == Slot(socket, tid) then Slot(-1, tid) else s[k])
  }

  class ClientTable {
    const slots: array<Slot>
    var numClients: int

    constructor ()
      ensures fresh(slots) && slots.Length == 6 && numClients == 0
      ensures Occupied(slots[..]) == 0
    {
      slots := new Slot[NUM_MAX_CLIENTS](_ => Slot(-1, 0));
      numClients := 0;
      new;
      NoneOccupied(slots[..]);
    }

    method Register(socket: int, tid: nat)
      modifies this`numClients, slots
      ensures slots[..] == Entered(old(slots[..]), socket, tid)
      ensures (forall k :: 0 <= k < slots.Length ==> old(slots[k]).socket != -1) ==>
        slots[..] == old(slots[..]) && numClients == old(numClients)
      ensures forall k :: 0 <= k < slots.Length && old(slots[k]).socket == -1 ==>
        (forall j :: 0 <= j < k ==> old(slots[j]).socket != -1) ==>
          slots[..] == old(slots[..])[k := Slot(socket, tid)] && numClients == old(numClients) + 1
      ensures socket != -1 ==>
        numClients - old(numClients) == Occupied(slots[..]) - Occupied(old(slots[..]))
    {
      ghost var was := slots[..];
      for x := 0 to slots.Length
        invariant slots[..] == was && numClients == old(numClients)
        invariant forall j :: 0 <= j < x ==> slots[j].socket != -1
      {
        if slots[x].socket == -1 {
          slots[x] := Slot(socket, tid);
          numClients := numClients + 1;
          assert x == FirstFree(was) && slots[..] == was[x := Slot(socket, tid)];
          OccupiedUpdate(was, x, Slot(socket, tid));
          return;
        }
      }
    }

    method Unregister(socket: int, tid: nat)
      modifies this`numClients, slots
      ensures slots[..] == Cleared(old(slots[..]), socket, tid)
      ensures forall k :: 0 <= k < slots.Length ==>
        slots[k] == if old(slots[k]) == Slot(socket, tid) then Slot(-1, tid) else old(slots[k])
      ensures numClients == old(numClients) - 1
    {
      numClients := numClients - 1;
      ghost var goal := Cleared(slots[..], socket, tid);
      for x := 0 to slots.Length
        invariant numClients == old(numClients) - 1
        invariant forall j :: 0 <= j < x ==> slots[j] == goal[j]
        invariant forall j :: x <= j < slots.Length ==> slots[j] == old(slots[j])
      {
        if slots[x].socket == socket && slots[x].tid == tid {
          slots[x] := slots[x].(socket := -1);
        }
      }
    }
  }

  lemma {:induction false} NoneOccupied(s: seq<Slot>)
    requires forall k :: 0 <= k < |s| ==> s[k].socket == -1
    ensures Occupied(s) == 0
  {
    if s != [] {
      NoneOccupied(s[..|s| - 1]);
    }
  }

  lemma {:induction false} OccupiedUpdate(s: seq<Slot>, k: nat, t: Slot)
    requires k < |s|
    ensures Occupied(s[k := t]) == Occupied(s) + (if t.socket != -1 then 1 else 0)
                                               - (if s[k].socket != -1 then 1 else 0)
  {
    var last := |s| - 1;
    if k == last {
      assert s[k := t][..last] == s[..last];
    } else {
      assert s[k := t][..last] == s[..last][k := t];
      OccupiedUpdate(s[..last], k, t);
    }
  }

  lemma {:induction false} AllOccupied(s: seq<Slot>)
    ensures Occupied(s) == |s| <==> FirstFree(s) == |s|
  {
    if s != [] {
      AllOccupied(s[..|s| - 1]);
    }
  }

  // ---------------------------------------------------------------- all interleavings

  /** A client thread has been started, has found a slot, or has found none. */
  datatype Phase = Started | Slotted(k: nat) | Slotless

  datatype Thread = Thread(socket: nat, phase: Phase)

  /** `ghosts` counts the threads that exited without ever having had a slot. */
  datatype TableState = TableState(slots: seq<Slot>, numClients: int, threads: map<nat, Thread>, ghosts: nat)

  datatype Step = Start(tid: nat, socket: nat) | Enter(tid: nat) | Leave(tid: nat)

  /** A client is admitted while the count is below the limit; its thread registers only later.
      Thread numbers are not reused while their thread lives; socket numbers may be, since a thread
      closes its socket before it unregisters. */
  predicate Enabled(s: TableState, e: Step) {
    match e
    case Start(tid, _) => tid !in s.threads && !Busy(s.numClients)
    case Enter(tid) => tid in s.threads && s.threads[tid].phase == Started
    case Leave(tid) => tid in s.threads && s.threads[tid].phase != Started
  }

  function Next(s: TableState, e: Step): TableState
    requires Enabled(s, e)
  {
    match e
    case Start(tid, socket) => s.(threads := s.threads[tid := Thread(socket, Started)])
    case Enter(tid) =>
      var (t, k) := (s.threads[tid], FirstFree(s.slots));
      var found := k < |s.slots|;
      s.(slots := Entered(s.slots, t.socket, tid),
         numClients := if found then s.numClients + 1 else s.numClients,
         threads := s.threads[tid := t.(phase := if found then Slotted(k) else Slotless)])
    case Leave(tid) =>
      var t := s.threads[tid];
      s.(slots := Cleared(s.slots, t.socket, tid), numClients := s.numClients - 1,
         threads := s.threads - {tid},
         ghosts := if t.phase == Slotless then s.ghosts + 1 else s.ghosts)
  }

  /** Occupied slots and slotted threads match one to one, and the count is short by the ghosts. */
  ghost predicate Inv(s: TableState) {
    && |s.slots| == NUM_MAX_CLIENTS
    && s.numClients == Occupied(s.slots) - s.ghosts
    && (forall tid :: tid in s.threads && s.threads[tid].phase.Slotted? ==>
          s.threads[tid].phase.k < |s.slots| && s.slots[s.threads[tid].phase.k] == Slot(s.threads[tid].socket, tid))
    && (forall k :: 0 <= k < |s.slots| && s.slots[k].socket != -1 ==>
          s.slots[k].tid in s.threads && s.threads[s.slots[k].tid].phase == Slotted(k))
  }

  predicate Initial(s: TableState) {
    && |s.slots| == NUM_MAX_CLIENTS && (forall k :: 0 <= k < |s.slots| ==> s.slots[k].socket == -1)
    && s.numClients == 0 && s.threads == map[] && s.ghosts == 0
  }

  lemma StepKeepsInv(s: TableState, e: Step)
    requires Inv(s) && Enabled(s, e)
    ensures Inv(Next(s, e))
  {
    match e
    case Start(tid, _) =>
    case Enter(tid) =>
      var k := FirstFree(s.slots);
      if k < |s.slots| {
        OccupiedUpdate(s.slots, k, Slot(s.threads[tid].socket, tid));
      }
    case Leave(tid) =>
      var t := s.threads[tid];
      if t.phase.Slotted? {
        var k := t.phase.k;
        assert Cleared(s.slots, t.socket, tid) == s.slots[k := Slot(-1, tid)];
        OccupiedUpdate(s.slots, k, Slot(-1, tid));
      } else {
        assert Cleared(s.slots, t.socket, tid) == s.slots;
      }
  }

  ghost predicate IsRun(run: seq<TableState>) {
    && |run| > 0 && Initial(run[0])
    && forall j :: 0 <= j < |run| - 1 ==> StepTo(run[j], run[j + 1])
  }

  ghost predicate StepTo(s: TableState, t: TableState) {
    exists e :: Enabled(s, e) && t == Next(s, e)
  }

  lemma {:induction false} RunKeepsInv(run: seq<TableState>, j: nat)
    requires IsRun(run) && j < |run|
    ensures Inv(run[j])
  {
    if j == 0 {
      NoneOccupied(run[0].slots);
    } else {
      RunKeepsInv(run, j - 1);
      assert StepTo(run[j - 1], run[j - 1 + 1]);
      var e :| Enabled(run[j - 1], e) && run[j] == Next(run[j - 1], e);
      StepKeepsInv(run[j - 1], e);
    }
  }

  lemma {:induction false} GhostsOnlyGrow(run: seq<TableState>, x: nat, y: nat)
    requires IsRun(run) && x <= y < |run|
    ensures run[x].ghosts <= run[y].ghosts
    decreases y - x
  {
    if x < y {
      GhostsOnlyGrow(run, x, y - 1);
      assert StepTo(run[y - 1], run[y - 1 + 1]);
    }
  }

  /** A newcomer is told BUSY exactly when all slots are taken and no thread has ever left without
      having had one. */
  lemma BusyIff(run: seq<TableState>, x: nat)
    requires IsRun(run) && x < |run|
    ensures |run[x].slots| == 6
    ensures Busy(run[x].numClients) <==>
      (forall k :: 0 <= k < 6 ==> run[x].slots[k].socket != -1) && run[x].ghosts == 0
  {
    RunKeepsInv(run, x);
    AllOccupied(run[x].slots);
  }

  /** From the first such departure on, nobody is ever told BUSY again. */
  lemma LimitLostForGood(run: seq<TableState>, x: nat, y: nat)
    requires IsRun(run) && x <= y < |run| && run[x].ghosts > 0
    ensures !Busy(run[y].numClients)
  {
    GhostsOnlyGrow(run, x, y);
    BusyIff(run, y);
  }

  /** A seated client can always leave; then its slot is free, the others are as they were, and there is
      one client less. */
  lemma SeatedCanLeave(run: seq<TableState>, x: nat, tid: nat)
    requires IsRun(run) && x < |run| && tid in run[x].threads && run[x].threads[tid].phase.Slotted?
    ensures Enabled(run[x], Leave(tid))
    ensures var (s, t) := (run[x], Next(run[x], Leave(tid)));
            var k := s.threads[tid].phase.k;
            && k < 6 == |s.slots| == |t.slots|
            && s.slots[k].socket != -1 == t.slots[k].socket && t.numClients == s.numClients - 1
            && (forall j :: 0 <= j < 6 && j != k ==> t.slots[j] == s.slots[j])
            && t.threads == s.threads - {tid} && t.ghosts == s.ghosts
  {
    RunKeepsInv(run, x);
  }

  // ---------------------------------------------------------------- the count and the clients

  /** Live threads that have no slot, not yet or not at all. */
  ghost function Unslotted(s: TableState): set<nat> {
    set tid | tid in s.threads && !s.threads[tid].phase.Slotted?
  }

  ghost function Seated(s: TableState): set<nat> {
    set tid | tid in s.threads && s.threads[tid].phase.Slotted?
  }

  /** Threads seated in the first `n` slots. */
  ghost function SeatedIn(s: TableState, n: nat): set<nat>
    requires n <= |s.slots|
  {
    set tid | tid in s.threads && s.threads[tid].phase.Slotted? && s.threads[tid].phase.k < n
  }

  lemma {:induction false} SeatedCount(s: TableState, n: nat)
    requires Inv(s) && n <= |s.slots|
    ensures |SeatedIn(s, n)| == Occupied(s.slots[..n])
  {
    if n == 0 {
      assert SeatedIn(s, 0) == {};
    } else {
      hide Inv, SeatedIn;
      SeatedCount(s, n - 1);
      assert s.slots[..n][..n - 1] == s.slots[..n - 1];
      SeatedNext(s, n - 1);
    }
  }

  lemma SeatedNext(s: TableState, n: nat)
    requires Inv(s) && n < |s.slots|
    ensures var slot := s.slots[n];
            if slot.socket == -1 then SeatedIn(s, n + 1) == SeatedIn(s, n)
            else SeatedIn(s, n + 1) == SeatedIn(s, n) + {slot.tid} && slot.tid !in SeatedIn(s, n)
  {
    hide Occupied;
    assert forall tid :: tid in SeatedIn(s, n + 1) - SeatedIn(s, n) ==> s.slots[n] == Slot(s.threads[tid].socket, tid);
  }

  lemma Balance(s: TableState)
    requires Inv(s)
    ensures s.numClients == |s.threads| - |Unslotted(s)| - s.ghosts
  {
    SeatedCount(s, |s.slots|);
    assert s.slots[..|s.slots|] == s.slots;
    assert SeatedIn(s, |s.slots|) == Seated(s);
    assert s.threads.Keys == Seated(s) + Unslotted(s) && Seated(s) !! Unslotted(s);
    assert |s.threads| == |s.threads.Keys|;
  }

  /** The count falls short of the clients being served by those without a slot and by every departure
      of a client that never had one. */
  lemma CountIsShort(run: seq<TableState>, x: nat)
    requires IsRun(run) && x < |run|
    ensures run[x].numClients == |run[x].threads| - |Unslotted(run[x])| - run[x].ghosts
  {
    RunKeepsInv(run, x);
    Balance(run[x]);
  }

  /** With as many clients being served as the limit allows, one more is admitted exactly when some of
      them has no slot or a client without one has left before. */
  lemma AdmittedAtLimitIff(run: seq<TableState>, x: nat)
    requires IsRun(run) && x < |run| && |run[x].threads| == 6
    ensures run[x].numClients < 6 <==> Unslotted(run[x]) != {} || run[x].ghosts > 0
    ensures !Busy(run[x].numClients) <==> Unslotted(run[x]) != {} || run[x].ghosts > 0
  {
    CountIsShort(run, x);
  }

  /** The limit is respected as long as everybody is seated whenever it is reached... */
  lemma {:induction false} LimitKept(run: seq<TableState>, x: nat)
    requires IsRun(run) && x < |run|
    requires forall y :: 0 <= y < x && |run[y].threads| == 6 ==>
               Unslotted(run[y]) == {} && run[y].ghosts == 0
    ensures |run[x].threads| <= 6
  {
    if x > 0 {
      LimitKept(run, x - 1);
      assert StepTo(run[x - 1], run[x - 1 + 1]);
      var e :| Enabled(run[x - 1], e) && run[x] == Next(run[x - 1], e);
      if |run[x - 1].threads| == 6 {
        AdmittedAtLimitIff(run, x - 1);
      }
      ThreadsGrowByStart(run[x - 1], e);
    }
  }

  /** ...and can be exceeded at once where that is not so. */
  lemma LimitExceeded(run: seq<TableState>) returns (t: TableState)
    requires IsRun(run) && |run[|run| - 1].threads| == 6
    requires Unslotted(run[|run| - 1]) != {} || run[|run| - 1].ghosts > 0
    ensures IsRun(run + [t]) && |t.threads| == 7
  {
    var s := run[|run| - 1];
    AdmittedAtLimitIff(run, |run| - 1);
    var tid := NewThread(s.threads.Keys);
    t := Next(s, Start(tid, 0));
    ThreadsGrowByStart(s, Start(tid, 0));
    assert StepTo(s, t);
    assert forall j :: 0 <= j < |run| - 1 ==> StepTo(run[j], run[j + 1]);
  }

  lemma ThreadsGrowByStart(s: TableState, e: Step)
    requires Enabled(s, e)
    ensures |Next(s, e).threads| == |s.threads| + match e case Start(_, _) => 1 case Enter(_) => 0 case Leave(_) => -1
  {
    var (m, n) := (s.threads.Keys, Next(s, e).threads.Keys);
    match e
    case Start(tid, _) => assert n == m + {tid};
    case Enter(tid) => assert n == m;
    case Leave(tid) => assert n == m - {tid};
  }

  lemma {:induction false} NewThread(tids: set<nat>) returns (unused: nat)
    ensures forall tid :: tid in tids ==> tid < unused
  {
    if tids == {} {
      unused := 0;
    } else {
      var tid :| tid in tids;
      var other := NewThread(tids - {tid});
      unused := if other <= tid then tid + 1 else other;
      assert forall t :: t in tids ==> t == tid || t in tids - {tid};
    }
  }

  // ---------------------------------------------------------------- how the limit is lost

  /** `j` clients admitted, none registered. */
  function Admitted(j: nat): TableState {
    TableState(seq(NUM_MAX_CLIENTS, _ => Slot(-1, 0)), 0, map t: nat | t < j :: Thread(t, Started), 0)
  }

  /** Seven clients admitted, of which the first `j` have registered or found no slot. */
  function Registered(j: nat): TableState {
    TableState(seq(NUM_MAX_CLIENTS, k => if 0 <= k < j then Slot(k, k) else Slot(-1, 0)),
               if j < NUM_MAX_CLIENTS then j else NUM_MAX_CLIENTS,
               map t: nat | t < 7 :: Thread(t, if t >= j then Started else if t < NUM_MAX_CLIENTS then Slotted(t)
                                               else Slotless),
               0)
  }

  /** Any number of clients can be admitted before the first of them registers, and none has left. */
  lemma NoBoundOnClients(n: nat) returns (run: seq<TableState>)
    ensures IsRun(run) && |run| == n + 1
    ensures |run[n].threads| == n
    ensures forall x :: 0 <= x <= n ==> run[x].ghosts == 0
  {
    run := seq(n + 1, j requires 0 <= j => Admitted(j));
    AllAdmitted();
    forall j | 0 <= j < |run| - 1 ensures StepTo(run[j], run[j + 1]) {
      AdmitNext(j);
    }
    AdmittedThreads(n);
  }

  lemma {:induction false} AdmittedThreads(n: nat)
    ensures |Admitted(n).threads| == n
  {
    if n > 0 {
      AdmittedThreads(n - 1);
      assert Admitted(n).threads.Keys == Admitted(n - 1).threads.Keys + {n - 1};
    } else {
      assert Admitted(0).threads == map[];
    }
  }

  lemma AdmitNext(j: nat)
    ensures StepTo(Admitted(j), Admitted(j + 1))
  {
    var e := Start(j, j);
    assert Next(Admitted(j), e).threads == Admitted(j + 1).threads;
    assert Enabled(Admitted(j), e) && Next(Admitted(j), e) == Admitted(j + 1);
  }

  lemma RegisterNext(j: nat)
    requires j < 7
    ensures StepTo(Registered(j), Registered(j + 1))
  {
    var (s, e) := (Registered(j), Enter(j));
    var free := if j < NUM_MAX_CLIENTS then j else NUM_MAX_CLIENTS;
    assert forall x :: 0 <= x < free ==> s.slots[x].socket == x;
    assert free < NUM_MAX_CLIENTS ==> s.slots[free].socket == -1;
    assert FirstFree(s.slots) == free;
    assert Next(s, e).slots == Registered(j + 1).slots;
    assert Next(s, e).threads == Registered(j + 1).threads;
    assert Enabled(s, e) && Next(s, e) == Registered(j + 1);
  }

  lemma SlotlessLeaves() returns (last: TableState)
    ensures StepTo(Registered(7), last) && last.ghosts > 0
  {
    assert Enabled(Registered(7), Leave(6));
    last := Next(Registered(7), Leave(6));
  }

  lemma AllAdmitted()
    ensures Initial(Admitted(0)) && Admitted(7) == Registered(0)
  {
    assert Admitted(0).threads == map[];
    assert Admitted(7).slots == Registered(0).slots;
    assert Admitted(7).threads == Registered(0).threads;
  }

  /** Seven clients are admitted before the first of them registers; one finds no slot and leaves.
      From then on nobody is told BUSY. */
  lemma LimitCanBeLost() returns (run: seq<TableState>)
    ensures IsRun(run) && run[|run| - 1].ghosts > 0
  {
    hide Admitted, Registered, StepTo, Initial;
    var last := SlotlessLeaves();
    AllAdmitted();
    run := seq(7, j requires 0 <= j => Admitted(j)) + seq(8, j requires 0 <= j => Registered(j)) + [last];
    forall j | 0 <= j < |run| - 1 ensures StepTo(run[j], run[j + 1]) {
      if j < 7 {
        AdmitNext(j);
      } else if j < 14 {
        RegisterNext(j - 7);
      }
    }
  }
}
