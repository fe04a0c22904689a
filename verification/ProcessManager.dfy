/**
 The process manager: a table of processes, a byte bitmap of the identifiers in use, and queues
 threaded through one `next` link per process. It is proved against the state machine of
 `Scheduler`.
 */
module ProcessQueues {
  import opened Machine
  import opened Scheduler

  /** The member at position `i`, if there is one. */
  function At(queue: seq<Pid>, i: nat): Option<Pid> {
    if i < |queue| then Some(queue[i]) else None
  }

  ghost predicate LinkAt(next: seq<Option<Pid>>, queue: seq<Pid>, i: nat)
    requires i < |queue|
  {
    queue[i] < |next| && next[queue[i]] == At(queue, i + 1)
  }

  /** From `head`, the links visit exactly the members of `queue`. */
  ghost predicate Chain(next: seq<Option<Pid>>, head: Option<Pid>, queue: seq<Pid>) {
    && head == At(queue, 0)
    && forall i :: 0 <= i < |queue| ==> LinkAt(next, queue, i)
  }

  lemma {:induction false} ChainFrame(next: seq<Option<Pid>>, next': seq<Option<Pid>>, head: Option<Pid>, queue: seq<Pid>)
    requires Chain(next, head, queue) && |next| == |next'|
    requires forall p <- queue :: p < |next| ==> next'[p] == next[p]
    ensures Chain(next', head, queue)
  {
    forall i | 0 <= i < |queue| ensures LinkAt(next', queue, i) {
      assert LinkAt(next, queue, i);
    }
  }

  /** Chains that share their links are equal. */
  lemma {:induction false} ChainUnique(next: seq<Option<Pid>>, head: Option<Pid>, a: seq<Pid>, b: seq<Pid>)
    requires Chain(next, head, a) && Chain(next, head, b)
    ensures a == b
    decreases a
  {
    if a != [] {
      assert a[0] == b[0];
      ChainTail(next, head, a);
      ChainTail(next, head, b);
      ChainUnique(next, next[a[0]], a[1..], b[1..]);
      assert a == [a[0]] + a[1..] && b == [b[0]] + b[1..];
    }
  }

  lemma {:induction false} ChainTail(next: seq<Option<Pid>>, head: Option<Pid>, queue: seq<Pid>)
    requires Chain(next, head, queue) && queue != []
    ensures queue[0] < |next| && Chain(next, next[queue[0]], queue[1..])
  {
    var rest := queue[1..];
    assert LinkAt(next, queue, 0);
    forall i | 0 <= i < |rest| ensures LinkAt(next, rest, i) {
      assert LinkAt(next, queue, i + 1);
    }
  }

  /** Where the search of an insertion stops. */
  lemma {:induction false} InsertAt(queue: seq<Pid>, p: Pid, i: nat)
    requires i <= |queue| && (forall j :: 0 <= j < i ==> queue[j] < p) && (i < |queue| ==> queue[i] >= p)
    ensures InsertPid(queue, p) == queue[..i] + [p] + queue[i..]
  {
    if i > 0 {
      var rest := queue[1..];
      forall j | 0 <= j < i - 1 ensures rest[j] < p {
        assert rest[j] == queue[j + 1];
      }
      InsertAt(rest, p, i - 1);
      assert [queue[0]] + rest[..i - 1] == queue[..i];
      assert rest[i - 1..] == queue[i..];
    } else {
      assert queue[..0] == [] && queue[0..] == queue;
    }
  }

  /** Where the search of a removal stops. */
  lemma {:induction false} RemoveAt(queue: seq<Pid>, p: Pid, i: nat)
    requires i <= |queue| && (forall j :: 0 <= j < i ==> queue[j] != p) && (i < |queue| ==> queue[i] == p)
    ensures RemovePid(queue, p) == if i < |queue| then queue[..i] + queue[i + 1..] else queue
  {
    if i > 0 {
      var rest := queue[1..];
      forall j | 0 <= j < i - 1 ensures rest[j] != p {
        assert rest[j] == queue[j + 1];
      }
      RemoveAt(rest, p, i - 1);
      assert RemovePid(queue, p) == [queue[0]] + RemovePid(rest, p);
      hide RemovePid;
      assert [queue[0]] + rest[..i - 1] == queue[..i];
      if i < |queue| {
        assert rest[i..] == queue[i + 1..];
      } else {
        assert [queue[0]] + rest == queue;
      }
    }
  }

  function LinkedIn(next: seq<Option<Pid>>, queue: seq<Pid>, p: Pid, i: nat): (r: seq<Option<Pid>>)
    requires p < |next| && i <= |queue| && (i > 0 ==> queue[i - 1] < |next|)
    ensures |r| == |next|
  {
    (if i > 0 then next[queue[i - 1] := Some(p)] else next)[p := At(queue, i)]
  }

  /** `q` is `queue` with `p` before position `i`. */
  ghost predicate Spread(queue: seq<Pid>, p: Pid, i: nat, q: seq<Pid>) {
    && |q| == |queue| + 1 && i <= |queue|
    && forall j {:trigger q[j]} :: 0 <= j < |q| ==> q[j] == if j < i then queue[j] else if j == i then p else queue[j - 1]
  }

  lemma {:induction false} LinkInsertInto(next: seq<Option<Pid>>, head: Option<Pid>, queue: seq<Pid>, p: Pid, i: nat, q: seq<Pid>)
    requires Chain(next, head, queue) && Increasing(queue) && p !in queue && p < |next|
    requires Spread(queue, p, i, q) && (i > 0 ==> queue[i - 1] < |next|)
    ensures Chain(LinkedIn(next, queue, p, i), if i > 0 then head else Some(p), q)
  {
    var r := LinkedIn(next, queue, p, i);
    assert q[0] == if i > 0 then queue[0] else p;
    forall j | 0 <= j < |q| ensures LinkAt(r, q, j) {
      assert j < |queue| ==> q[j + 1] == if j + 1 < i then queue[j + 1] else if j + 1 == i then p else queue[j];
      if j == i {
        assert q[j] == p;
      } else {
        var k := if j < i then j else j - 1;
        assert q[j] == queue[k];
        assert LinkAt(next, queue, k);
        assert i > 0 && k != i - 1 ==> queue[k] != queue[i - 1];
      }
    }
  }

  /** Linking `p` in before position `i`. */
  lemma {:induction false} LinkInsert(next: seq<Option<Pid>>, head: Option<Pid>, queue: seq<Pid>, p: Pid, i: nat)
    requires Chain(next, head, queue) && Increasing(queue) && p !in queue && p < |next| && i <= |queue|
    ensures i > 0 ==> queue[i - 1] < |next|
    ensures Chain(LinkedIn(next, queue, p, i), if i > 0 then head else Some(p), queue[..i] + [p] + queue[i..])
  {
    assert i > 0 ==> LinkAt(next, queue, i - 1);
    var q := queue[..i] + [p] + queue[i..];
    assert Spread(queue, p, i, q);
    LinkInsertInto(next, head, queue, p, i, q);
    hide Chain, Increasing;
  }

  function LinkedOut(next: seq<Option<Pid>>, queue: seq<Pid>, i: nat): (r: seq<Option<Pid>>)
    requires i < |queue| && queue[i] < |next| && (i > 0 ==> queue[i - 1] < |next|)
    ensures |r| == |next|
  {
    (if i > 0 then next[queue[i - 1] := At(queue, i + 1)] else next)[queue[i] := None]
  }

  lemma {:induction false} ChainLink(next: seq<Option<Pid>>, head: Option<Pid>, queue: seq<Pid>)
    requires Chain(next, head, queue)
    ensures head == At(queue, 0)
    ensures forall i :: 0 <= i < |queue| ==> queue[i] < |next| && next[queue[i]] == At(queue, i + 1)
  {
    forall i | 0 <= i < |queue| ensures queue[i] < |next| && next[queue[i]] == At(queue, i + 1) {
      assert LinkAt(next, queue, i);
    }
  }

  lemma {:induction false} LinkedOutUntouched(next: seq<Option<Pid>>, queue: seq<Pid>, i: nat)
    requires i < |queue| && queue[i] < |next| && (i > 0 ==> queue[i - 1] < |next|)
    ensures Untouched(next, LinkedOut(next, queue, i), queue, queue[i]) && LinkedOut(next, queue, i)[queue[i]] == None
  {
  }

  lemma {:induction false} LinkRemoveFrom(next: seq<Option<Pid>>, head: Option<Pid>, queue: seq<Pid>, i: nat, q: seq<Pid>)
    requires Chain(next, head, queue) && Increasing(queue)
    requires i < |queue| && queue[i] < |next| && (i > 0 ==> queue[i - 1] < |next|)
    requires |q| == |queue| - 1 && forall j :: 0 <= j < |q| ==> q[j] == queue[if j < i then j else j + 1]
    ensures Chain(LinkedOut(next, queue, i), if i > 0 then head else At(queue, 1), q)
  {
    var r := LinkedOut(next, queue, i);
    forall j | 0 <= j < |q| ensures LinkAt(r, q, j) {
      var k := if j < i then j else j + 1;
      assert LinkAt(next, queue, k) && queue[k] != queue[i];
      assert i > 0 && k != i - 1 ==> queue[k] != queue[i - 1];
    }
  }

  /** Unlinking the member at position `i`. */
  lemma {:induction false} LinkRemove(next: seq<Option<Pid>>, head: Option<Pid>, queue: seq<Pid>, i: nat)
    requires Chain(next, head, queue) && Increasing(queue) && i < |queue|
    ensures queue[i] < |next| && (i > 0 ==> queue[i - 1] < |next|)
    ensures Chain(LinkedOut(next, queue, i), if i > 0 then head else At(queue, 1), queue[..i] + queue[i + 1..])
  {
    assert LinkAt(next, queue, i) && (i > 0 ==> LinkAt(next, queue, i - 1));
    var q := queue[..i] + queue[i + 1..];
    forall j | 0 <= j < |q| ensures q[j] == queue[if j < i then j else j + 1] {
    }
    LinkRemoveFrom(next, head, queue, i, q);
    hide Chain, Increasing;
  }

  /** Links may only change at the members of `queue` and at `p`. */
  ghost predicate Untouched(a: seq<Option<Pid>>, b: seq<Option<Pid>>, queue: seq<Pid>, p: Pid) {
    |a| == |b| && forall x :: 0 <= x < |a| && x != p && x !in queue ==> b[x] == a[x]
  }

  lemma {:induction false} ChainUntouched(a: seq<Option<Pid>>, b: seq<Option<Pid>>, queue: seq<Pid>, p: Pid, head: Option<Pid>, other: seq<Pid>)
    requires Chain(a, head, other) && Untouched(a, b, queue, p) && p !in other && forall x <- other :: x !in queue
    ensures Chain(b, head, other)
  {
    ChainFrame(a, b, head, other);
  }
}

module ProcessManagement {
  import opened Machine
  import opened Bits
  import opened Scheduler
  import opened ProcessQueues

  /** Ready queue `k` shares no process with any other queue. */
  lemma {:induction false} ReadyApart(v: Sched, loose: Option<Pid>, k: nat)
    requires Consistent(v, loose) && k < LEVELS
    ensures |v.ready| == LEVELS && Increasing(v.ready[k])
    ensures forall j :: 0 <= j < LEVELS && j != k ==> forall x <- v.ready[j] :: x !in v.ready[k]
    ensures forall x <- v.blocked :: x !in v.ready[k]
    ensures forall x <- v.terminated :: x !in v.ready[k]
  {
    assert AllIn(v, v.ready[k], Ready);
  }

  lemma {:induction false} BlockedApart(v: Sched, loose: Option<Pid>)
    requires Consistent(v, loose)
    ensures |v.ready| == LEVELS && Increasing(v.blocked)
    ensures forall j :: 0 <= j < LEVELS ==> forall x <- v.ready[j] :: x !in v.blocked
    ensures forall x <- v.terminated :: x !in v.blocked
  {
    forall j | 0 <= j < LEVELS ensures AllIn(v, v.ready[j], Ready) {
    }
  }

  lemma {:induction false} TerminatedApart(v: Sched, loose: Option<Pid>)
    requires Consistent(v, loose)
    ensures |v.ready| == LEVELS && Increasing(v.terminated)
    ensures forall j :: 0 <= j < LEVELS ==> forall x <- v.ready[j] :: x !in v.terminated
    ensures forall x <- v.blocked :: x !in v.terminated
  {
    forall j | 0 <= j < LEVELS ensures AllIn(v, v.ready[j], Ready) {
    }
  }

  function ByteMarked(w: bv8, k: nat, inUse: bool): bv8
    requires k < 8
  {
    if inUse then w | Bit8(k) else w & !Bit8(k)
  }

  function Marked(bits: seq<bv8>, p: nat, inUse: bool): seq<bv8>
    requires |bits| == MAX_PROCESSES / 8
  {
    if p >= MAX_PROCESSES then bits else bits[p / 8 := ByteMarked(bits[p / 8], p % 8, inUse)]
  }

  lemma {:induction false} MarkedBits(bits: seq<bv8>, p: nat, inUse: bool)
    requires |bits| == MAX_PROCESSES / 8
    ensures forall j: nat :: BitAt8(Marked(bits, p, inUse), j) <==>
      if j == p < MAX_PROCESSES then inUse else BitAt8(bits, j)
  {
    if p < MAX_PROCESSES {
      SetBitAt8(bits, p);
      ClearBitAt8(bits, p);
      assert Marked(bits, p, inUse) == if inUse then WithBit8(bits, p) else WithoutBit8(bits, p);
    }
    hide BitAt8, WithBit8, WithoutBit8;
  }

  // ---------- the states that an operation passes through ----------

  lemma {:induction false} CreateSteps(v: Sched, p: Pid, priority: nat)
    requires Inv(v) && p !in v.procs && p < MAX_PROCESSES
    ensures |v.ready| == LEVELS && Inv(Created(v, p, priority))
    ensures var k := Clamp(priority);
      Consistent(WithProc(v, p, Proc(Ready, k, k, Refill(k), 0, 0)), Some(p))
  {
    var k := Clamp(priority);
    Unknown(v, p);
    SetLoose(v, p, Proc(Ready, k, k, Refill(k), 0, 0), None);
    CreatedKeeps(v, p, priority);
  }

  lemma {:induction false} ExitSteps(v: Sched, p: Pid)
    requires Inv(v) && v.current == Some(p)
    ensures p in v.procs && p < MAX_PROCESSES && Inv(Exited(v, p))
    ensures var q := v.procs[p].(state := Terminated);
      Consistent(v.(current := None, procs := v.procs[p := q]), Some(p))
  {
    TakeCurrent(v);
    Change(v.(current := None), p, v.procs[p].(state := Terminated));
    ExitedKeeps(v, p);
  }

  lemma {:induction false} WakeSteps(v: Sched, p: Pid)
    requires Inv(v) && p in v.procs && v.procs[p].state == Blocked
    ensures p in v.blocked && v.procs[p].priority < |v.ready| == LEVELS && Inv(Woken(v, p))
    ensures var q := v.procs[p].(state := Ready);
      Consistent(v.(blocked := RemovePid(v.blocked, p), procs := v.procs[p := q]), Some(p))
  {
    OnePlace(v, p);
    TakeBlocked(v, p);
    Change(v.(blocked := RemovePid(v.blocked, p)), p, v.procs[p].(state := Ready));
    WokenKeeps(v, p);
    InvFacts(v, p);
  }

  lemma {:induction false} SleepReadySteps(v: Sched, p: Pid, wait: nat)
    requires Inv(v) && p in v.procs && v.procs[p].state == Ready
    ensures var k := v.procs[p].priority;
      && k < |v.ready| == LEVELS && p in v.ready[k]
      && Inv(Slept(v, p, wait))
      && Consistent(v.(ready := v.ready[k := RemovePid(v.ready[k], p)], procs := v.procs[p := Asleep(v, p, wait)]), Some(p))
      && Slept(v, p, wait) == FallenAsleep(v.(ready := v.ready[k := RemovePid(v.ready[k], p)]), p, Asleep(v, p, wait))
  {
    OnePlace(v, p);
    InvFacts(v, p);
    var k := v.procs[p].priority;
    TakeReady(v, p);
    Change(v.(ready := v.ready[k := RemovePid(v.ready[k], p)]), p, Asleep(v, p, wait));
    SleptKeeps(v, p, wait);
    hide Consistent, FallenAsleep;
  }

  lemma {:induction false} SleepCurrentSteps(v: Sched, p: Pid, wait: nat)
    requires Inv(v) && v.current == Some(p)
    ensures p in v.procs && Inv(Slept(v, p, wait))
    ensures Consistent(v.(current := None, procs := v.procs[p := Asleep(v, p, wait)]), Some(p))
    ensures Slept(v, p, wait) == FallenAsleep(v.(current := None), p, Asleep(v, p, wait))
  {
    InvFacts(v, p);
    TakeCurrent(v);
    Change(v.(current := None), p, Asleep(v, p, wait));
    SleptKeeps(v, p, wait);
    hide Consistent, FallenAsleep;
  }

  lemma {:induction false} RequeueSteps(v: Sched)
    requires Inv(v) && v.current.Some?
    ensures var p := v.current.value;
      && p in v.procs && p < MAX_PROCESSES && v.procs[p].state == Running
      && v.procs[p].priority < LEVELS == |v.ready|
      && Consistent(v.(procs := v.procs[p := PutBack(v.procs[p])], current := None), Some(p))
  {
    var p := v.current.value;
    InvFacts(v, p);
    TakeCurrent(v);
    Change(v.(current := None), p, PutBack(v.procs[p]));
  }

  lemma {:induction false} DispatchSteps(v: Sched)
    requires Inv(v) && v.current == None
    ensures |v.ready| == LEVELS && Inv(Dispatched(v))
    ensures var k := FirstLevel(v.ready, 0);
      k < LEVELS ==> v.ready[k] != [] && v.ready[k][0] in v.procs && v.ready[k][0] < MAX_PROCESSES
  {
    DispatchedKeeps(v);
    var k := FirstLevel(v.ready, 0);
    if k < LEVELS {
      assert AllIn(v, v.ready[k], Ready) && v.ready[k][0] in v.ready[k];
    }
  }

  lemma {:induction false} ScanStart(next: seq<Option<Pid>>, head: Option<Pid>, queue: seq<Pid>)
    requires Chain(next, head, queue)
    ensures head == At(queue, 0) && queue == [] + queue && Chain(next, None, [])
  {
  }

  /** The link of the first member of `rest`. */
  lemma {:induction false} ScanLink(next: seq<Option<Pid>>, head: Option<Pid>, kept: seq<Pid>, rest: seq<Pid>)
    requires Chain(next, head, kept + rest) && rest != []
    ensures rest[0] < |next| && next[rest[0]] == At(rest, 1) == At(rest[1..], 0)
  {
    var queue := kept + rest;
    assert LinkAt(next, queue, |kept|);
    assert queue[|kept|] == rest[0];
    assert |rest| > 1 ==> queue[|kept| + 1] == rest[1];
  }

  lemma {:induction false} ScanStep(v: Sched, kept: seq<Pid>, rest: seq<Pid>)
    requires Inv(v) && v.blocked == kept + rest && rest != []
    ensures rest[0] in v.procs && rest[0] < MAX_PROCESSES
    ensures Woken(v, rest[0]).blocked == kept + rest[1..]
    ensures v.blocked == (kept + [rest[0]]) + rest[1..]
  {
    hide Consistent, Woken, RemovePid;
    assert rest[0] in v.blocked;
    InBlocked(v, rest[0]);
    QueueSplit(kept, rest);
    WokenEffects(v, kept, rest);
    assert kept + rest == (kept + [rest[0]]) + rest[1..];
  }

  lemma {:induction false} InBlocked(v: Sched, p: Pid)
    requires Inv(v) && p in v.blocked
    ensures p in v.procs && p < MAX_PROCESSES && Increasing(v.blocked)
  {
    assert AllIn(v, v.blocked, Blocked);
  }

  lemma {:induction false} InTerminated(v: Sched, p: Pid)
    requires Inv(v) && p in v.terminated
    ensures p in v.procs && p < MAX_PROCESSES
  {
    assert AllIn(v, v.terminated, Terminated);
  }

  lemma {:induction false} ReapStart(v: Sched)
    requires Inv(v)
    ensures Surviving(v.procs, v.terminated[..0]) == v.procs
    ensures Reaped(v).active + |v.terminated| == v.active == |v.procs|
  {
    ReapedCount(v.procs, v.terminated);
  }

  lemma {:induction false} SurvivingOne(procs: map<Pid, Proc>, gone: seq<Pid>, p: Pid)
    ensures Surviving(procs, gone + [p]) == Surviving(procs, gone) - {p}
  {
  }

  lemma {:induction false} ReapStep(v: Sched, i: nat)
    requires Inv(v) && i < |v.terminated|
    ensures v.terminated[i] < MAX_PROCESSES
    ensures Surviving(v.procs, v.terminated[..i + 1]) == Surviving(v.procs, v.terminated[..i]) - {v.terminated[i]}
  {
    hide Consistent;
    var gone := v.terminated;
    assert gone[i] in gone;
    InTerminated(v, gone[i]);
    assert gone[..i + 1] == gone[..i] + [gone[i]];
    SurvivingOne(v.procs, gone[..i], gone[i]);
  }

  lemma {:induction false} CurrentIsNotReady(v: Sched, p: Pid)
    requires Inv(v)
    ensures p in v.procs && v.current == Some(p) ==> v.procs[p].state == Running
  {
  }

  lemma {:induction false} PidBound(v: Sched, p: Pid)
    requires Inv(v)
    ensures p in v.procs ==> p < MAX_PROCESSES
  {
  }

  class ProcessManager {
    const processes: array<Option<Proc>>
    const processBitmap: array<bv8>
    const next: array<Option<Pid>>
    const readyQueues: array<Option<Pid>>
    var blockedQueue: Option<Pid>
    var terminatedQueue: Option<Pid>
    var currentProcess: Option<Pid>
    var activeProcesses: nat
    var systemTicks: nat
    ghost var view: Sched

    ghost predicate Shaped() {
      && processes.Length == MAX_PROCESSES && processBitmap.Length == MAX_PROCESSES / 8
      && next.Length == MAX_PROCESSES && readyQueues.Length == LEVELS && next != readyQueues
      && (processes as object) != next && (processes as object) != readyQueues && (processes as object) != processBitmap
      && (processBitmap as object) != next && (processBitmap as object) != readyQueues
    }

    /** The queues hold the lists of `v`. */
    ghost predicate Linked(v: Sched)
      requires Shaped()
      reads this`blockedQueue, this`terminatedQueue, next, readyQueues
    {
      && |v.ready| == LEVELS
      && (forall k :: 0 <= k < LEVELS ==> Chain(next[..], readyQueues[k], v.ready[k]))
      && Chain(next[..], blockedQueue, v.blocked)
      && Chain(next[..], terminatedQueue, v.terminated)
    }

    /** The table and the bitmap hold the processes of `procs`. */
    ghost predicate Recorded(procs: map<Pid, Proc>)
      requires Shaped()
      reads processes, processBitmap
    {
      && (forall p :: 0 <= p < MAX_PROCESSES ==> processes[p] == if p in procs then Some(procs[p]) else None)
      && (forall p :: 0 <= p < MAX_PROCESSES ==> (BitAt8(processBitmap[..], p) <==> p in procs))
    }

    ghost predicate Valid()
      reads this, processes, processBitmap, next, readyQueues
    {
      && Shaped() && Inv(view) && Linked(view) && Recorded(view.procs)
      && currentProcess == view.current && activeProcesses == view.active && systemTicks == view.ticks
    }

    constructor ()
      ensures Valid() && view == Start()
      ensures fresh(processes) && fresh(processBitmap) && fresh(next) && fresh(readyQueues)
    {
      processes := new Option<Proc>[MAX_PROCESSES](_ => None);
      processBitmap := new bv8[MAX_PROCESSES / 8](_ => 0);
      next := new Option<Pid>[MAX_PROCESSES](_ => None);
      readyQueues := new Option<Pid>[LEVELS](_ => None);
      blockedQueue, terminatedQueue, currentProcess := None, None, None;
      activeProcesses, systemTicks := 0, 0;
      view := After([]);
      new;
      forall p | 0 <= p < MAX_PROCESSES ensures !BitAt8(processBitmap[..], p) {
        ZeroHasNoBit8(p % 8);
      }
    }

    // ---------- queues ----------

    /** Puts `p` into a queue in the order of identifiers. */
    method Enqueue(head: Option<Pid>, p: Pid, ghost queue: seq<Pid>) returns (r: Option<Pid>)
      requires Chain(next[..], head, queue) && Increasing(queue) && p !in queue && p < next.Length
      modifies next
      ensures Chain(next[..], r, InsertPid(queue, p))
      ensures Untouched(old(next[..]), next[..], queue, p)
    {
      ghost var i := 0;
      ghost var links := next[..];
      if head == None {
        next[p] := None;
        InsertAt(queue, p, 0);
        LinkInsert(links, head, queue, p, 0);
        assert next[..] == LinkedIn(links, queue, p, 0);
        return Some(p);
      }
      var current, prev := head, None;
      while current.Some? && current.value < p
        invariant i <= |queue| && current == At(queue, i) && prev == if i > 0 then Some(queue[i - 1]) else None
        invariant forall j :: 0 <= j < i ==> queue[j] < p
        decreases |queue| - i
      {
        assert LinkAt(links, queue, i);
        prev := current;
        current := next[current.value];
        i := i + 1;
      }
      InsertAt(queue, p, i);
      LinkInsert(links, head, queue, p, i);
      r := head;
      if prev.Some? {
        next[prev.value] := Some(p);
      } else {
        r := Some(p);
      }
      next[p] := current;
      assert next[..] == LinkedIn(links, queue, p, i);
    }

    /** Takes the first process of a queue. */
    method Dequeue(head: Option<Pid>, ghost queue: seq<Pid>) returns (r: Option<Pid>, front: Option<Pid>)
      requires Chain(next[..], head, queue) && Increasing(queue)
      modifies next
      ensures front == At(queue, 0) && (front.Some? ==> front.value < next.Length && next[front.value] == None)
      ensures Chain(next[..], r, if queue == [] then [] else queue[1..])
      ensures if queue == [] then next[..] == old(next[..]) else Untouched(old(next[..]), next[..], queue, queue[0])
    {
      if head == None {
        return None, None;
      }
      ghost var links := next[..];
      LinkRemove(links, head, queue, 0);
      assert LinkAt(links, queue, 0);
      assert queue[..0] + queue[0 + 1..] == queue[1..];
      front := head;
      r := next[head.value];
      next[head.value] := None;
      assert next[..] == LinkedOut(links, queue, 0);
    }

    /** Takes `p` out of a queue, wherever in it it is. */
    method Remove(head: Option<Pid>, p: Pid, ghost queue: seq<Pid>) returns (r: Option<Pid>, found: Option<Pid>)
      requires Chain(next[..], head, queue) && Increasing(queue)
      modifies next
      ensures found == (if p in queue then Some(p) else None) && (found.Some? ==> p < next.Length && next[p] == None)
      ensures Chain(next[..], r, RemovePid(queue, p))
      ensures if p in queue then Untouched(old(next[..]), next[..], queue, p) else next[..] == old(next[..])
    {
      if head == None {
        return None, None;
      }
      hide Chain, Increasing, RemovePid, Untouched;
      ghost var i := 0;
      ghost var links := next[..];
      ChainLink(links, head, queue);
      var current, prev := head, None;
      while current.Some? && current.value != p
        invariant i <= |queue| && current == At(queue, i) && prev == if i > 0 then Some(queue[i - 1]) else None
        invariant forall j :: 0 <= j < i ==> queue[j] != p
        decreases |queue| - i
      {
        prev := current;
        current := next[current.value];
        i := i + 1;
      }
      RemoveAt(queue, p, i);
      if current == None {
        return head, None;
      }
      LinkRemove(links, head, queue, i);
      LinkedOutUntouched(links, queue, i);
      r := head;
      if prev.Some? {
        next[prev.value] := next[current.value];
      } else {
        r := next[current.value];
      }
      next[current.value] := None;
      found := current;
      assert next[..] == LinkedOut(links, queue, i);
    }

    method EnqueueReady(p: Pid, k: nat, ghost v: Sched)
      requires Shaped() && Linked(v) && Consistent(v, Some(p)) && p in v.procs && v.procs[p].priority == k < LEVELS
      modifies next, readyQueues
      ensures Linked(Enqueued(v, p))
    {
      ReadyApart(v, Some(p), k);
      ghost var links, heads := next[..], readyQueues[..];
      assert Nowhere(v, p) && p < MAX_PROCESSES;
      hide Consistent, Chain, Increasing, Untouched, InsertPid;
      var head := Enqueue(readyQueues[k], p, v.ready[k]);
      readyQueues[k] := head;
      ghost var v' := Enqueued(v, p);
      forall j | 0 <= j < LEVELS ensures Chain(next[..], readyQueues[j], v'.ready[j]) {
        if j != k {
          ChainUntouched(links, next[..], v.ready[k], p, heads[j], v.ready[j]);
        }
      }
      ChainUntouched(links, next[..], v.ready[k], p, blockedQueue, v.blocked);
      ChainUntouched(links, next[..], v.ready[k], p, terminatedQueue, v.terminated);
    }

    method EnqueueBlocked(p: Pid, ghost v: Sched)
      requires Shaped() && Linked(v) && Consistent(v, Some(p)) && p in v.procs
      modifies next, this`blockedQueue
      ensures Linked(v.(blocked := InsertPid(v.blocked, p)))
    {
      BlockedApart(v, Some(p));
      ghost var links := next[..];
      assert Nowhere(v, p) && p < MAX_PROCESSES;
      hide Consistent, Chain, Increasing, Untouched, InsertPid;
      blockedQueue := Enqueue(blockedQueue, p, v.blocked);
      forall j | 0 <= j < LEVELS ensures Chain(next[..], readyQueues[j], v.ready[j]) {
        ChainUntouched(links, next[..], v.blocked, p, readyQueues[j], v.ready[j]);
      }
      ChainUntouched(links, next[..], v.blocked, p, terminatedQueue, v.terminated);
    }

    method EnqueueTerminated(p: Pid, ghost v: Sched)
      requires Shaped() && Linked(v) && Consistent(v, Some(p)) && p in v.procs
      modifies next, this`terminatedQueue
      ensures Linked(v.(terminated := InsertPid(v.terminated, p)))
    {
      TerminatedApart(v, Some(p));
      ghost var links := next[..];
      assert Nowhere(v, p) && p < MAX_PROCESSES;
      hide Consistent, Chain, Increasing, Untouched, InsertPid;
      terminatedQueue := Enqueue(terminatedQueue, p, v.terminated);
      forall j | 0 <= j < LEVELS ensures Chain(next[..], readyQueues[j], v.ready[j]) {
        ChainUntouched(links, next[..], v.terminated, p, readyQueues[j], v.ready[j]);
      }
      ChainUntouched(links, next[..], v.terminated, p, blockedQueue, v.blocked);
    }

    method RemoveReady(p: Pid, k: nat, ghost v: Sched)
      requires Shaped() && Linked(v) && Inv(v) && k < LEVELS && p in v.ready[k]
      modifies next, readyQueues
      ensures Linked(v.(ready := v.ready[k := RemovePid(v.ready[k], p)]))
    {
      ReadyApart(v, None, k);
      ghost var links, heads := next[..], readyQueues[..];
      hide Consistent, Chain, Increasing, Untouched, RemovePid;
      var head, found := Remove(readyQueues[k], p, v.ready[k]);
      readyQueues[k] := head;
      forall j | 0 <= j < LEVELS && j != k ensures Chain(next[..], readyQueues[j], v.ready[j]) {
        assert p !in v.ready[j];
        ChainUntouched(links, next[..], v.ready[k], p, heads[j], v.ready[j]);
      }
      ChainUntouched(links, next[..], v.ready[k], p, blockedQueue, v.blocked);
      ChainUntouched(links, next[..], v.ready[k], p, terminatedQueue, v.terminated);
    }

    method RemoveBlocked(p: Pid, ghost v: Sched)
      requires Shaped() && Linked(v) && Inv(v) && p in v.blocked
      modifies next, this`blockedQueue
      ensures Linked(v.(blocked := RemovePid(v.blocked, p)))
    {
      BlockedApart(v, None);
      ghost var links := next[..];
      hide Consistent, Chain, Increasing, Untouched, RemovePid;
      var head, found := Remove(blockedQueue, p, v.blocked);
      blockedQueue := head;
      forall j | 0 <= j < LEVELS ensures Chain(next[..], readyQueues[j], v.ready[j]) {
        assert p !in v.ready[j];
        ChainUntouched(links, next[..], v.blocked, p, readyQueues[j], v.ready[j]);
      }
      ChainUntouched(links, next[..], v.blocked, p, terminatedQueue, v.terminated);
    }

    method DequeueReady(k: nat, ghost v: Sched) returns (front: Option<Pid>)
      requires Shaped() && Linked(v) && Inv(v) && k < LEVELS
      modifies next, readyQueues
      ensures front == At(v.ready[k], 0)
      ensures Linked(if v.ready[k] == [] then v else v.(ready := v.ready[k := v.ready[k][1..]]))
    {
      ReadyApart(v, None, k);
      ghost var links, heads := next[..], readyQueues[..];
      hide Consistent, Chain, Increasing, Untouched;
      var head;
      head, front := Dequeue(readyQueues[k], v.ready[k]);
      readyQueues[k] := head;
      if v.ready[k] != [] {
        assert v.ready[k][0] in v.ready[k];
        forall j | 0 <= j < LEVELS && j != k ensures Chain(next[..], readyQueues[j], v.ready[j]) {
          ChainUntouched(links, next[..], v.ready[k], v.ready[k][0], heads[j], v.ready[j]);
        }
        ChainUntouched(links, next[..], v.ready[k], v.ready[k][0], blockedQueue, v.blocked);
        ChainUntouched(links, next[..], v.ready[k], v.ready[k][0], terminatedQueue, v.terminated);
      }
    }

    // ---------- the table ----------

    /** The least identifier not in use. */
    method FindFreePid() returns (r: Option<Pid>)
      requires Shaped() && Recorded(view.procs)
      ensures r == FreePid(view.procs, 0)
    {
      hide IsSet8;
      for i := 0 to MAX_PROCESSES
        invariant FreePid(view.procs, 0) == FreePid(view.procs, i)
      {
        assert BitAt8(processBitmap[..], i) <==> i in view.procs;
        if !IsSet8(processBitmap[i / 8], i % 8) {
          return Some(i);
        }
      }
      return None;
    }

    method SetPidInUse(p: nat, inUse: bool)
      requires Shaped()
      modifies processBitmap
      ensures processBitmap[..] == Marked(old(processBitmap[..]), p, inUse)
    {
      hide ByteMarked;
      if p < MAX_PROCESSES {
        processBitmap[p / 8] := ByteMarked(processBitmap[p / 8], p % 8, inUse);
      }
    }

    /** The entry of a process that exists. */
    lemma Entry(procs: map<Pid, Proc>, p: Pid)
      requires Shaped() && Recorded(procs) && p < MAX_PROCESSES
      ensures processes[p] == if p in procs then Some(procs[p]) else None
    {
    }

    method SetProcess(p: Pid, q: Proc, ghost procs: map<Pid, Proc>)
      requires Shaped() && Recorded(procs) && p in procs && p < MAX_PROCESSES
      modifies processes
      ensures Recorded(procs[p := q])
    {
      hide BitAt8;
      processes[p] := Some(q);
    }

    /** A process enters the table, or leaves it. */
    method Register(p: Pid, q: Option<Proc>, ghost procs: map<Pid, Proc>)
      requires Shaped() && Recorded(procs) && p < MAX_PROCESSES
      modifies processes, processBitmap
      ensures Recorded(match q case Some(r) => procs[p := r] case None => procs - {p})
    {
      MarkedBits(processBitmap[..], p, q.Some?);
      hide BitAt8, Marked;
      processes[p] := q;
      SetPidInUse(p, q.Some?);
    }

    // ---------- operations ----------

    /**
     A new process under the least free identifier. `entry` says whether there is a function to run,
     `resources` whether its memory could be allocated.
     */
    method Create(priority: nat, entry: bool, resources: bool) returns (pid: Option<Pid>)
      requires Valid()
      modifies this, processes, processBitmap, next, readyQueues
      ensures Valid()
      ensures pid == if entry && resources then FreePid(old(view).procs, 0) else None
      ensures view == if pid.Some? then Created(old(view), pid.value, priority) else old(view)
    {
      hide Consistent, Chain, Recorded, InsertPid, FreePid;
      if !entry {
        return None;
      }
      pid := FindFreePid();
      if pid == None || !resources {
        return None;
      }
      var p := pid.value;
      var k := if priority > LEVELS - 1 then LEVELS - 1 else priority;
      var q := Proc(Ready, k, k, SLICE_BASE * (LEVELS - k), 0, 0);
      ghost var v := WithProc(view, p, q);
      CreateSteps(view, p, priority);
      Register(p, Some(q), view.procs);
      activeProcesses := activeProcesses + 1;
      EnqueueReady(p, k, v);
      view := Created(view, p, priority);
    }

    /**
     The current process ends itself; unknown identifiers are ignored. `asks` is the test for
     requesting the scheduler: it comes after the current process has been cleared, so it never holds.
     */
    method Terminate(pid: nat) returns (asks: bool)
      requires Valid()
      requires pid < MAX_PROCESSES && processes[pid].Some? ==> currentProcess == Some(pid)
      modifies this, processes, next
      ensures Valid() && view == Exited(old(view), pid) && !asks
    {
      hide Consistent, Chain, Recorded, InsertPid;
      PidBound(view, pid);
      if pid >= MAX_PROCESSES {
        return false;
      }
      Entry(view.procs, pid);
      if processes[pid] == None {
        return false;
      }
      ExitSteps(view, pid);
      var q := processes[pid].value.(state := Terminated);
      ghost var v := view.(current := None, procs := view.procs[pid := q]);
      SetProcess(pid, q, view.procs);
      if currentProcess == Some(pid) {
        currentProcess := None;
      }
      EnqueueTerminated(pid, v);
      view := Exited(view, pid);
      asks := currentProcess == Some(pid);
    }

    /** A ready or the current process sleeps; any other is left alone. `asks` is as in `Terminate`. */
    method Block(pid: nat, wait: nat) returns (asks: bool)
      requires Valid()
      modifies this, processes, next, readyQueues
      ensures Valid() && view == Slept(old(view), pid, wait) && !asks
    {
      hide Consistent, Chain, Recorded, InsertPid, RemovePid;
      PidBound(view, pid);
      if pid >= MAX_PROCESSES {
        return false;
      }
      Entry(view.procs, pid);
      var process := processes[pid];
      if process == None || (process.value.state != Ready && currentProcess != Some(pid)) {
        return false;
      }
      CurrentIsNotReady(view, pid);
      var q := process.value;
      var q' := q.(state := Blocked, wakeup := (systemTicks + wait) % WORD);
      ghost var v := view;
      if q.state == Ready {
        SleepReadySteps(view, pid, wait);
        v := view.(ready := view.ready[q.priority := RemovePid(view.ready[q.priority], pid)]);
        RemoveReady(pid, q.priority, view);
      } else {
        SleepCurrentSteps(view, pid, wait);
        v := view.(current := None);
        currentProcess := None;
      }
      SetProcess(pid, q', view.procs);
      v := v.(procs := view.procs[pid := q']);
      EnqueueBlocked(pid, v);
      view := v.(blocked := InsertPid(v.blocked, pid));
      asks := currentProcess == Some(pid);
    }

    /** A blocked process becomes ready on its own level; any other is left alone. */
    method Unblock(pid: nat)
      requires Valid()
      modifies this, processes, next, readyQueues
      ensures Valid() && view == Woken(old(view), pid)
    {
      hide Consistent, Chain, Recorded, InsertPid, RemovePid;
      PidBound(view, pid);
      if pid >= MAX_PROCESSES {
        return;
      }
      Entry(view.procs, pid);
      var process := processes[pid];
      if process == None || process.value.state != Blocked {
        return;
      }
      var q := process.value.(state := Ready);
      WakeSteps(view, pid);
      ghost var v := view.(blocked := RemovePid(view.blocked, pid), procs := view.procs[pid := q]);
      RemoveBlocked(pid, view);
      SetProcess(pid, q, view.procs);
      EnqueueReady(pid, q.priority, v);
      view := Enqueued(v, pid);
    }

    /** The scheduling step of the timer interrupt. */
    method Schedule()
      requires Valid()
      modifies this, processes, next, readyQueues
      ensures Valid() && view == Scheduler.Schedule(old(view))
    {
      hide Consistent, Chain, Recorded, InsertPid;
      RequeuedKeeps(view);
      ghost var v := Requeued(view);
      PutBackCurrent();
      DispatchSteps(v);
      var found := TakeNext(v);
      if found == None {
        currentProcess := None;
        view := Dispatched(v);
        return;
      }
      Entry(v.procs, found.value);
      SetProcess(found.value, processes[found.value].value.(state := Running), v.procs);
      currentProcess := found;
      view := Dispatched(v);
    }

    /** The search of the ready queues, best level first, for the next process. */
    method TakeNext(ghost v: Sched) returns (found: Option<Pid>)
      requires Shaped() && Inv(v) && Linked(v)
      modifies next, readyQueues
      ensures var k := FirstLevel(v.ready, 0);
        && (found == if k < LEVELS then At(v.ready[k], 0) else None)
        && Linked(if k < LEVELS then v.(ready := v.ready[k := v.ready[k][1..]]) else v)
    {
      hide Consistent, Chain;
      for i := 0 to LEVELS
        invariant Linked(v) && FirstLevel(v.ready, 0) == FirstLevel(v.ready, i)
      {
        found := DequeueReady(i, v);
        if found.Some? {
          return;
        }
      }
      return None;
    }

    /** The running process goes back to the ready queue of its level. */
    method PutBackCurrent()
      requires Valid()
      modifies processes, next, readyQueues
      ensures Linked(Requeued(view)) && Recorded(Requeued(view).procs)
    {
      hide Consistent, Chain, Recorded, InsertPid;
      if currentProcess == None {
        return;
      }
      RequeueSteps(view);
      var p := currentProcess.value;
      Entry(view.procs, p);
      var q := processes[p].value;
      if q.state == Running {
        if q.slice > 0 {
          q := q.(state := Ready);
        } else {
          var k := if q.priority < LEVELS - 1 then q.priority + 1 else q.priority;
          q := q.(priority := k, slice := SLICE_BASE * (LEVELS - k), state := Ready);
        }
        ghost var v := view.(procs := view.procs[p := q], current := None);
        SetProcess(p, q, view.procs);
        EnqueueReady(p, q.priority, v);
      }
    }

    /** One timer tick: charge the running process, wake the sleepers, and now and then clear away the dead. */
    method Tick()
      requires Valid()
      modifies this, processes, processBitmap, next, readyQueues
      ensures Valid() && view == Scheduler.Tick(old(view))
    {
      hide Consistent, Chain, Recorded, Woken;
      Charge();
      ghost var v := view;
      WakeSleepers();
      if systemTicks % REAP_PERIOD == 0 {
        Reap();
      }
    }

    method Charge()
      requires Valid()
      modifies this, processes
      ensures Valid() && view == Advanced(old(view))
    {
      hide Consistent, Chain, Recorded;
      AdvancedKeeps(view);
      systemTicks := (systemTicks + 1) % WORD;
      if currentProcess.Some? {
        var p := currentProcess.value;
        RequeueSteps(view);
        Entry(view.procs, p);
        var q := processes[p].value;
        if q.state == Running {
          SetProcess(p, q.(slice := (q.slice + WORD - 1) % WORD, runtime := (q.runtime + 1) % WORD), view.procs);
        }
      }
      view := Advanced(view);
    }

    /** The scan of the blocked queue. Waking a process unlinks it, so its link is read first. */
    method WakeSleepers()
      requires Valid()
      modifies this, processes, next, readyQueues
      ensures Valid() && view == WakeAll(old(view), old(view).blocked)
    {
      hide Consistent, Chain, Recorded, Woken;
      ghost var v := view;
      ghost var kept, rest := [], view.blocked;
      ScanStart(next[..], blockedQueue, rest);
      var current := blockedQueue;
      while current.Some?
        invariant Valid() && view.blocked == kept + rest && current == At(rest, 0)
        invariant WakeAll(v, v.blocked) == WakeAll(view, rest)
        decreases |rest|
      {
        var p := current.value;
        ScanStep(view, kept, rest);
        ScanLink(next[..], blockedQueue, kept, rest);
        Entry(view.procs, p);
        var after := next[p];
        var q := processes[p].value;
        if q.wakeup > 0 && systemTicks >= q.wakeup {
          Unblock(p);
        } else {
          kept := kept + [p];
        }
        rest := rest[1..];
        current := after;
      }
    }

    /** Every process in the queue of terminated ones leaves the table. */
    method Reap()
      requires Valid()
      modifies this, processes, processBitmap
      ensures Valid() && view == Reaped(old(view))
    {
      hide Consistent, Chain, Recorded;
      ReapedKeeps(view);
      ghost var gone, procs, i := view.terminated, view.procs, 0;
      ReapStart(view);
      ScanStart(next[..], terminatedQueue, gone);
      var current := terminatedQueue;
      while current.Some?
        invariant i <= |gone| && current == At(gone, i)
        invariant Recorded(Surviving(procs, gone[..i])) && activeProcesses + i == |procs|
        decreases |gone| - i
        modifies processes, processBitmap, this`activeProcesses
      {
        var p := current.value;
        ReapStep(view, i);
        assert gone == gone[..i] + gone[i..];
        ScanLink(next[..], terminatedQueue, gone[..i], gone[i..]);
        current := next[p];
        Register(p, None, Surviving(procs, gone[..i]));
        activeProcesses := activeProcesses - 1;
        i := i + 1;
      }
      terminatedQueue := None;
      assert gone[..i] == gone;
      view := Reaped(view);
    }

    method Perform(op: Op)
      requires Valid()
      modifies this, processes, processBitmap, next, readyQueues
      ensures Valid() && view == Step(old(view), op)
    {
      hide Consistent, Chain, Recorded, Shaped;
      match op
      case Create(priority) => var pid := Create(priority, true, true);
      case Exit =>
        if currentProcess.Some? {
          var _ := Terminate(currentProcess.value);
        }
      case Sleep(p, wait) => var _ := Block(p, wait);
      case Wake(p) => Unblock(p);
      case Preempt => Schedule();
      case Clock => Tick();
    }
  }

  /** A manager after any run is in the state that the state machine says. */
  method Run(ops: seq<Op>) returns (m: ProcessManager)
    ensures m.Valid() && m.view == After(ops)
  {
    hide Consistent, Chain;
    m := new ProcessManager();
    assert ops[..0] == [];
    for i := 0 to |ops|
      invariant m.Valid() && m.view == After(ops[..i])
      invariant fresh(m) && fresh(m.processes) && fresh(m.processBitmap) && fresh(m.next) && fresh(m.readyQueues)
    {
      assert ops[..i + 1][..i] == ops[..i] && ops[..i + 1][i] == ops[i];
      m.Perform(ops[i]);
    }
    assert ops[..|ops|] == ops;
  }
}
