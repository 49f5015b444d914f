/** The log of a server: client threads queue lines, one writer thread writes them out. */
module ServerLog {
  import opened Data
  import opened Framing

  /** A null line is queued for a request of a kind that the log has no format for. */
  type Line = Option<seq<byte>>

  // ---------------------------------------------------------------- the queue

  class LogNode {
    const str: Line
    var next: LogNode?

    constructor (line: Line)
      ensures str == line && next == null
    {
      str, next := line, null;
    }
  }

  class LogQueue {
    var head: LogNode?
    var tail: LogNode?
    ghost var nodes: seq<LogNode>

    ghost predicate Valid()
      reads this, nodes
    {
      && head == At(0)
      && tail == (if nodes == [] then null else nodes[|nodes| - 1])
      && (forall k {:trigger nodes[k].next} :: 0 <= k < |nodes| ==> nodes[k].next == At(k + 1))
      && (forall j, k :: 0 <= j < k < |nodes| ==> nodes[j] != nodes[k])
    }

    ghost function At(k: nat): LogNode?
      reads this
    {
      if k < |nodes| then nodes[k] else null
    }

    ghost function Lines(): seq<Line>
      reads this
    {
      seq(|nodes|, k requires 0 <= k < |nodes| reads this => nodes[k].str)
    }

    constructor ()
      ensures Valid() && Lines() == [] && nodes == []
    {
      head, tail := null, null;
      nodes := [];
    }

    method Enqueue(line: Line)
      requires Valid()
      modifies this, nodes
      ensures Valid() && Lines() == old(Lines()) + [line]
      ensures fresh(set n | n in nodes && n !in old(nodes))
    {
      var node := new LogNode(line);
      if tail == null {
        head := node;
        tail := node;
      } else {
        tail.next := node;
        tail := node;
      }
      nodes := nodes + [node];
    }

    /** The writer's critical section once there is a line. */
    method Dequeue() returns (node: LogNode)
      requires Valid() && head != null
      modifies this
      ensures Valid() && [node.str] + Lines() == old(Lines())
      ensures head == null <==> tail == null
    {
      node := head;
      head := node.next;
      if head == null {
        tail := null;
      }
      nodes := nodes[1..];
    }

    /** Shutdown frees what is still queued. */
    method Clear()
      requires Valid()
      modifies this
      ensures Valid() && Lines() == []
    {
      head, tail := null, null;
      nodes := [];
    }
  }

  /** The writer's loop over one line. An interrupted write is repeated; a failing one abandons the
      rest of the line. */
  method WriteLine(file: Stream, line: Line, calls: seq<Call>) returns (ghost written: seq<byte>)
    requires IsSchedule(calls)
    modifies file
    ensures file.bytes == old(file.bytes) + written && written <= TextOf(line)
    ensures NoFailure(calls) && MoveCount(calls) >= |TextOf(line)| ==> written == TextOf(line)
    ensures line == None ==> file.bytes == old(file.bytes)
    ensures line.Some? ==> written <= line.value
    ensures line.Some? && NoFailure(calls) && MoveCount(calls) >= |line.value| ==>
      file.bytes == old(file.bytes) + line.value
  {
    written := [];
    if line == None {
      return;
    }
    var buffer := new byte[|line.value|](k requires 0 <= k < |line.value| => line.value[k]);
    assert buffer[..|line.value|] == line.value;
    var r, used := WriteAll(file, buffer, |line.value|, calls);
    if r.Complete? {
      written := line.value;
    } else {
      ghost var k :| 0 <= k < |line.value| && file.bytes == old(file.bytes) + buffer[..k];
      written := buffer[..k];
      assert buffer[..k] == line.value[..k];
    }
  }

  function TextOf(line: Line): seq<byte> {
    if line.Some? then line.value else []
  }

  function Text(lines: seq<Line>): seq<byte> {
    if lines == [] then [] else Text(lines[..|lines| - 1]) + TextOf(lines[|lines| - 1])
  }

  // ---------------------------------------------------------------- all interleavings

  /** `hand` is the line the writer has taken and not finished, `done` those it has finished, and
      `lost` those freed at shutdown. The writer sleeps on the condition variable or is awake. */
  datatype LogState = LogState(
    queue: seq<Line>, hand: Option<Line>, done: seq<Line>, lost: seq<Line>, file: seq<byte>,
    running: bool, asleep: bool, exited: bool, enqueued: seq<Line>)

  datatype Step =
    | Queue(line: Line)
    | Sleep
    | Wake
    | Take
    | Finish(written: seq<byte>)
    | Stop
    | Exit
    | Free

  const EMPTY_LOG := LogState([], None, [], [], [], true, false, false, [])

  predicate WriterFree(s: LogState) {
    !s.exited && !s.asleep && s.hand == None
  }

  predicate Enabled(s: LogState, e: Step) {
    match e
    case Queue(_) => true
    case Sleep => WriterFree(s) && s.queue == [] && s.running
    case Wake => s.asleep
    case Take => WriterFree(s) && s.queue != []
    case Finish(written) => s.hand.Some? && written <= TextOf(s.hand.value)
    case Stop => true
    case Exit => WriterFree(s) && s.queue == [] && !s.running
    case Free => s.exited
  }

  /** Queueing and stopping signal the condition variable; `Wake` is a wakeup without a signal. */
  function Next(s: LogState, e: Step): LogState
    requires Enabled(s, e)
  {
    match e
    case Queue(line) => s.(queue := s.queue + [line], enqueued := s.enqueued + [line], asleep := false)
    case Sleep => s.(asleep := true)
    case Wake => s.(asleep := false)
    case Take => s.(hand := Some(s.queue[0]), queue := s.queue[1..])
    case Finish(written) => s.(hand := None, done := s.done + [s.hand.value], file := s.file + written)
    case Stop => s.(running := false, asleep := false)
    case Exit => s.(exited := true)
    case Free => s.(lost := s.lost + s.queue, queue := [])
  }

  function InHand(s: LogState): seq<Line> {
    if s.hand.Some? then [s.hand.value] else []
  }

  /** Every line is accounted for, in the order of queueing, and no wakeup is ever missed. */
  ghost predicate Inv(s: LogState) {
    && s.enqueued == s.done + InHand(s) + s.lost + s.queue
    && (s.lost != [] ==> s.exited)
    && (s.exited ==> s.hand == None && !s.running)
    && (s.asleep ==> s.queue == [] && s.running && s.hand == None && !s.exited)
  }

  lemma StepKeepsInv(s: LogState, e: Step)
    requires Inv(s) && Enabled(s, e)
    ensures Inv(Next(s, e))
  {
    var t := Next(s, e);
    match e
    case Queue(line) =>
      assert t.enqueued == t.done + InHand(t) + t.lost + t.queue;
    case Take =>
      assert s.lost == [];
      assert s.queue == [s.queue[0]] + s.queue[1..];
    case Finish(_) =>
      assert s.done + [s.hand.value] == t.done;
    case Free =>
      assert t.done + InHand(t) + t.lost + t.queue == s.done + InHand(s) + s.lost + s.queue;
    case _ =>
  }

  ghost predicate IsRun(run: seq<LogState>, steps: seq<Step>) {
    && |run| == |steps| + 1 && run[0] == EMPTY_LOG
    && forall j :: 0 <= j < |steps| ==> Enabled(run[j], steps[j]) && run[j + 1] == Next(run[j], steps[j])
  }

  lemma {:induction false} RunKeepsInv(run: seq<LogState>, steps: seq<Step>, j: nat)
    requires IsRun(run, steps) && j < |run|
    ensures Inv(run[j])
  {
    if j > 0 {
      RunKeepsInv(run, steps, j - 1);
      assert run[j - 1 + 1] == Next(run[j - 1], steps[j - 1]);
      StepKeepsInv(run[j - 1], steps[j - 1]);
    }
  }

  /** No step so far abandoned a line. */
  ghost predicate Intact(run: seq<LogState>, steps: seq<Step>, x: nat)
    requires IsRun(run, steps) && x <= |steps|
  {
    forall j :: 0 <= j < x && steps[j].Finish? ==> steps[j].written == TextOf(run[j].hand.value)
  }

  /** The lines that left the queue in order are the lines written, in order: finished lines are a
      prefix of the queued ones, and the file holds their text as long as no write failed. */
  lemma {:induction false} FirstInFirstOut(run: seq<LogState>, steps: seq<Step>, x: nat)
    requires IsRun(run, steps) && x < |run|
    ensures run[x].done <= run[x].enqueued
    ensures Intact(run, steps, x) ==> run[x].file == Text(run[x].done)
  {
    RunKeepsInv(run, steps, x);
    if x > 0 {
      FirstInFirstOut(run, steps, x - 1);
      var (s, e) := (run[x - 1], steps[x - 1]);
      assert run[x - 1 + 1] == Next(s, e);
      if e.Finish? {
        assert (s.done + [s.hand.value])[..|s.done|] == s.done;
      }
    }
  }

  /** When the writer exits, every line queued by then has been finished. */
  lemma NothingLeftAtExit(run: seq<LogState>, steps: seq<Step>, x: nat)
    requires IsRun(run, steps) && x < |steps| && steps[x] == Exit
    ensures run[x].queue == [] && run[x].done == run[x].enqueued
    ensures Intact(run, steps, x) ==> run[x].file == Text(run[x].enqueued)
  {
    RunKeepsInv(run, steps, x);
    FirstInFirstOut(run, steps, x);
  }

  /** While a line is queued, or shutdown has begun, a writer that has not exited is not asleep:
      it can finish, take a line, or exit. */
  lemma WriterNeverStuck(run: seq<LogState>, steps: seq<Step>, x: nat)
    requires IsRun(run, steps) && x < |run|
    requires !run[x].exited && (run[x].queue != [] || !run[x].running)
    ensures !run[x].asleep
    ensures Enabled(run[x], Take) || Enabled(run[x], Exit) || Enabled(run[x], Finish([]))
  {
    RunKeepsInv(run, steps, x);
  }

  /** The writer can always finish all that has been queued, with every line written whole. */
  lemma {:induction false} Flush(run: seq<LogState>, steps: seq<Step>) returns (later: seq<LogState>, more: seq<Step>)
    requires IsRun(run, steps) && Intact(run, steps, |steps|) && !run[|steps|].exited
    ensures IsRun(later, more) && Intact(later, more, |more|) && run <= later && steps <= more
    ensures var t := later[|more|];
            && t.enqueued == run[|steps|].enqueued == t.done && t.file == Text(t.enqueued)
            && t.queue == [] && t.hand == None && t.lost == [] && !t.exited && t.running == run[|steps|].running
    decreases |run[|steps|].queue|, run[|steps|].hand.Some?
  {
    var s := run[|steps|];
    RunKeepsInv(run, steps, |steps|);
    if s.hand.Some? {
      later, more := Extend(run, steps, Finish(TextOf(s.hand.value)));
      later, more := Flush(later, more);
    } else if s.queue != [] {
      later, more := Extend(run, steps, Take);
      later, more := Flush(later, more);
    } else {
      later, more := run, steps;
      FirstInFirstOut(run, steps, |steps|);
      assert s.done + [] + [] + [] == s.done;
    }
  }

  lemma Extend(run: seq<LogState>, steps: seq<Step>, e: Step) returns (later: seq<LogState>, more: seq<Step>)
    requires IsRun(run, steps) && Intact(run, steps, |steps|) && Enabled(run[|steps|], e)
    requires e.Finish? ==> e.written == TextOf(run[|steps|].hand.value)
    ensures more == steps + [e] && later == run + [Next(run[|steps|], e)]
    ensures IsRun(later, more) && Intact(later, more, |more|)
  {
    hide Next, Enabled, TextOf;
    more, later := steps + [e], run + [Next(run[|steps|], e)];
    forall j | 0 <= j < |more| ensures Enabled(later[j], more[j]) && later[j + 1] == Next(later[j], more[j]) {
      assert j < |steps| ==> Enabled(run[j], steps[j]) && run[j + 1] == Next(run[j], steps[j]);
    }
  }

  /** Until the writer has exited, any line can be queued, and then be written behind all lines before. */
  lemma QueuedIsWritten(run: seq<LogState>, steps: seq<Step>, line: Line)
    returns (later: seq<LogState>, more: seq<Step>)
    requires IsRun(run, steps) && Intact(run, steps, |steps|) && !run[|steps|].exited
    ensures IsRun(later, more) && run <= later
    ensures var (s, t) := (run[|steps|], later[|more|]);
            t.done == s.enqueued + [line] && t.file == Text(s.enqueued) + (if line.Some? then line.value else [])
  {
    later, more := Extend(run, steps, Queue(line));
    later, more := Flush(later, more);
    assert (run[|steps|].enqueued + [line])[..|run[|steps|].enqueued|] == run[|steps|].enqueued;
  }

  /** Shutdown can begin at any time, and the writer then exits with everything written that was queued. */
  lemma ShutsDown(run: seq<LogState>, steps: seq<Step>) returns (later: seq<LogState>, more: seq<Step>)
    requires IsRun(run, steps) && Intact(run, steps, |steps|) && !run[|steps|].exited
    ensures IsRun(later, more) && run <= later && later[|more|].exited
    ensures later[|more|].done == run[|steps|].enqueued && later[|more|].file == Text(run[|steps|].enqueued)
  {
    later, more := Extend(run, steps, Stop);
    later, more := Flush(later, more);
    RunKeepsInv(later, more, |more|);
    later, more := Extend(later, more, Exit);
  }

  /** A line queued after that is never written: shutdown frees it. */
  lemma LateLineIsLost(line: Line) returns (run: seq<LogState>, steps: seq<Step>)
    ensures IsRun(run, steps) && Intact(run, steps, |steps|)
    ensures run[|steps|].enqueued == run[|steps|].lost == [line] && run[|steps|].file == []
  {
    run, steps := [EMPTY_LOG], [];
    run, steps := Extend(run, steps, Stop);
    run, steps := Extend(run, steps, Exit);
    run, steps := Extend(run, steps, Queue(line));
    run, steps := Extend(run, steps, Free);
  }
}
