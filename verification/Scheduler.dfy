/**
 The process scheduler as a state machine over process identifiers: sixteen ready queues, a
 blocked queue, a queue of terminated processes and the current process.
 */
module Scheduler {
  import opened Machine

  const MAX_PROCESSES := 64
  const LEVELS := 16
  const SLICE_BASE := 10
  const REAP_PERIOD := 100

  type Pid = nat

  datatype State = Ready | Running | Blocked | Terminated

  datatype Proc = Proc(state: State, priority: nat, base: nat, slice: nat, wakeup: nat, runtime: nat)

  datatype Sched = Sched(
    procs: map<Pid, Proc>,
    ready: seq<seq<Pid>>,
    blocked: seq<Pid>,
    terminated: seq<Pid>,
    current: Option<Pid>,
    active: nat,
    ticks: nat)

  // ---------- queues ----------

  /** Queues are kept in the order of their identifiers. */
  function InsertPid(s: seq<Pid>, p: Pid): seq<Pid> {
    if s == [] || s[0] >= p then [p] + s else [s[0]] + InsertPid(s[1..], p)
  }

  function RemovePid(s: seq<Pid>, p: Pid): seq<Pid> {
    if s == [] then [] else if s[0] == p then s[1..] else [s[0]] + RemovePid(s[1..], p)
  }

  ghost predicate Increasing(s: seq<Pid>) {
    forall i, j :: 0 <= i < j < |s| ==> s[i] < s[j]
  }

  lemma {:induction false} IncreasingTail(s: seq<Pid>)
    requires Increasing(s) && s != []
    ensures Increasing(s[1..]) && s[0] !in s[1..] && forall x <- s[1..] :: s[0] < x
  {
  }

  lemma {:induction false} IncreasingCons(x: Pid, s: seq<Pid>)
    requires Increasing(s) && forall y <- s :: x < y
    ensures Increasing([x] + s)
  {
    var r := [x] + s;
    forall i, j | 0 <= i < j < |r| ensures r[i] < r[j] {
      assert r[j] == s[j - 1] && s[j - 1] in s;
      assert i > 0 ==> r[i] == s[i - 1];
    }
  }

  lemma {:induction false} InsertMembers(s: seq<Pid>, p: Pid)
    ensures forall x :: x in InsertPid(s, p) <==> x == p || x in s
  {
    if s != [] && s[0] < p {
      InsertMembers(s[1..], p);
      assert s == [s[0]] + s[1..];
    }
  }

  lemma {:induction false} InsertIncreasing(s: seq<Pid>, p: Pid)
    requires Increasing(s) && p !in s
    ensures Increasing(InsertPid(s, p))
  {
    InsertMembers(s, p);
    if s != [] {
      IncreasingTail(s);
      if s[0] < p {
        InsertIncreasing(s[1..], p);
        InsertMembers(s[1..], p);
        IncreasingCons(s[0], InsertPid(s[1..], p));
      }
    }
  }

  lemma {:induction false} RemoveMembers(s: seq<Pid>, p: Pid)
    requires Increasing(s)
    ensures forall x :: x in RemovePid(s, p) <==> x != p && x in s
    ensures Increasing(RemovePid(s, p))
  {
    if s != [] {
      IncreasingTail(s);
      assert s == [s[0]] + s[1..];
      if s[0] != p {
        RemoveMembers(s[1..], p);
        IncreasingCons(s[0], RemovePid(s[1..], p));
      }
    }
  }

  // ---------- the operations ----------

  function Clamp(priority: nat): nat {
    if priority > LEVELS - 1 then LEVELS - 1 else priority
  }

  function Refill(priority: nat): nat
    requires priority < LEVELS
  {
    SLICE_BASE * (LEVELS - priority)
  }

  /** The least identifier from `i` on that is not in use. */
  function FreePid(procs: map<Pid, Proc>, i: nat): (r: Option<Pid>)
    ensures r.Some? ==> i <= r.value < MAX_PROCESSES && r.value !in procs
    ensures forall p :: i <= p < (if r.Some? then r.value else MAX_PROCESSES) ==> p in procs
    decreases MAX_PROCESSES - i
  {
    if i >= MAX_PROCESSES then None else if i !in procs then Some(i) else FreePid(procs, i + 1)
  }

  function Enqueued(s: Sched, p: Pid): Sched
    requires p in s.procs && s.procs[p].priority < |s.ready|
  {
    var k := s.procs[p].priority;
    s.(ready := s.ready[k := InsertPid(s.ready[k], p)])
  }

  function Created(s: Sched, p: Pid, priority: nat): Sched
    requires |s.ready| == LEVELS
  {
    var k := Clamp(priority);
    Enqueued(s.(procs := s.procs[p := Proc(Ready, k, k, Refill(k), 0, 0)], active := s.active + 1), p)
  }

  /** Only the current process terminates. */
  function Exited(s: Sched, p: Pid): Sched {
    if p !in s.procs || s.current != Some(p) then s
    else s.(procs := s.procs[p := s.procs[p].(state := Terminated)], current := None,
            terminated := InsertPid(s.terminated, p))
  }

  function Asleep(s: Sched, p: Pid, wait: nat): Proc
    requires p in s.procs
  {
    s.procs[p].(state := Blocked, wakeup := (s.ticks + wait) % WORD)
  }

  function Slept(s: Sched, p: Pid, wait: nat): Sched
    requires Inv(s)
  {
    if p !in s.procs then s
    else if s.procs[p].state == Ready then
      var k := s.procs[p].priority;
      FallenAsleep(s.(ready := s.ready[k := RemovePid(s.ready[k], p)]), p, Asleep(s, p, wait))
    else if s.current == Some(p) then
      FallenAsleep(s.(current := None), p, Asleep(s, p, wait))
    else s
  }

  function FallenAsleep(s: Sched, p: Pid, q: Proc): Sched {
    s.(procs := s.procs[p := q], blocked := InsertPid(s.blocked, p))
  }

  function Woken(s: Sched, p: Pid): Sched
    requires Inv(s)
  {
    if p !in s.procs || s.procs[p].state != Blocked then s
    else Enqueued(s.(procs := s.procs[p := s.procs[p].(state := Ready)], blocked := RemovePid(s.blocked, p)), p)
  }

  /** A process that has used up its slice goes down one level and gets a new one. */
  function PutBack(q: Proc): Proc
    requires q.priority < LEVELS
  {
    var k := if q.priority < LEVELS - 1 then q.priority + 1 else q.priority;
    if q.slice > 0 then q.(state := Ready) else q.(state := Ready, priority := k, slice := Refill(k))
  }

  /** The current process goes back to a ready queue. */
  function Requeued(s: Sched): Sched
    requires Inv(s)
  {
    if s.current == None then s
    else
      var p := s.current.value;
      Enqueued(s.(procs := s.procs[p := PutBack(s.procs[p])], current := None), p)
  }

  /** The first level from `k` on that has a ready process. */
  function FirstLevel(ready: seq<seq<Pid>>, k: nat): (r: nat)
    requires k <= |ready|
    ensures k <= r <= |ready| && (forall i :: k <= i < r ==> ready[i] == []) && (r < |ready| ==> ready[r] != [])
    decreases |ready| - k
  {
    if k == |ready| || ready[k] != [] then k else FirstLevel(ready, k + 1)
  }

  function Dispatched(s: Sched): Sched
    requires Inv(s)
  {
    var k := FirstLevel(s.ready, 0);
    if k == |s.ready| then s.(current := None)
    else
      var p := s.ready[k][0];
      s.(ready := s.ready[k := s.ready[k][1..]], procs := s.procs[p := s.procs[p].(state := Running)], current := Some(p))
  }

  // ---------- the invariant ----------

  ghost predicate AllIn(s: Sched, queue: seq<Pid>, state: State) {
    Increasing(queue) && forall p <- queue :: p in s.procs && s.procs[p].state == state
  }

  /** The place that a process's state names. */
  ghost predicate Placed(s: Sched, p: Pid)
    requires p in s.procs
  {
    match s.procs[p].state
    case Ready => s.procs[p].priority < |s.ready| && p in s.ready[s.procs[p].priority]
    case Running => s.current == Some(p)
    case Blocked => p in s.blocked
    case Terminated => p in s.terminated
  }

  /** Everything is in its place, except that `loose`, if any, is in no place at all. */
  ghost predicate Consistent(s: Sched, loose: Option<Pid>) {
    && |s.ready| == LEVELS
    && (forall k :: 0 <= k < LEVELS ==> AllIn(s, s.ready[k], Ready))
    && (forall k, p :: 0 <= k < LEVELS && p in s.ready[k] ==> s.procs[p].priority == k)
    && AllIn(s, s.blocked, Blocked)
    && AllIn(s, s.terminated, Terminated)
    && (s.current.Some? ==> s.current.value in s.procs && s.procs[s.current.value].state == Running)
    && (forall p <- s.procs :: p < MAX_PROCESSES && s.procs[p].base <= s.procs[p].priority < LEVELS)
    && (forall p <- s.procs :: Some(p) != loose ==> Placed(s, p))
    && s.active == |s.procs|
    && (loose.Some? ==> Nowhere(s, loose.value))
  }

  ghost predicate Nowhere(s: Sched, p: Pid) {
    p in s.procs && Apart(s, p)
  }

  /** Process `p` is in no queue and not current. */
  ghost predicate Apart(s: Sched, p: Pid) {
    && s.current != Some(p) && p !in s.blocked && p !in s.terminated
    && forall k :: 0 <= k < |s.ready| ==> p !in s.ready[k]
  }

  /**
   Each process is in the one place that its state names, queues are strictly sorted, priorities
   are in range and the counter counts.
   */
  ghost predicate Inv(s: Sched) {
    Consistent(s, None)
  }

  lemma {:induction false} InvFacts(s: Sched, p: Pid)
    requires Inv(s) && p in s.procs
    ensures |s.ready| == LEVELS && p < MAX_PROCESSES && s.procs[p].base <= s.procs[p].priority < LEVELS
    ensures s.current == Some(p) <==> s.procs[p].state == Running
  {
    assert Placed(s, p);
  }

  // ---------- taking a process out of its place, and putting it into another ----------

  lemma {:induction false} TakeReady(s: Sched, p: Pid)
    requires Inv(s) && p in s.procs && s.procs[p].state == Ready
    ensures var k := s.procs[p].priority;
      Consistent(s.(ready := s.ready[k := RemovePid(s.ready[k], p)]), Some(p))
  {
    var k := s.procs[p].priority;
    var s' := s.(ready := s.ready[k := RemovePid(s.ready[k], p)]);
    RemoveMembers(s.ready[k], p);
    forall j | 0 <= j < LEVELS ensures AllIn(s', s'.ready[j], Ready) && p !in s'.ready[j] {
      assert AllIn(s, s.ready[j], Ready);
    }
    forall x <- s'.procs | x != p ensures Placed(s', x) {
      assert Placed(s, x);
    }
  }

  lemma {:induction false} TakeBlocked(s: Sched, p: Pid)
    requires Inv(s) && p in s.procs && s.procs[p].state == Blocked
    ensures Consistent(s.(blocked := RemovePid(s.blocked, p)), Some(p))
  {
    var s' := s.(blocked := RemovePid(s.blocked, p));
    RemoveMembers(s.blocked, p);
    forall j | 0 <= j < LEVELS ensures AllIn(s', s'.ready[j], Ready) {
      assert AllIn(s, s.ready[j], Ready);
    }
    forall x <- s'.procs | x != p ensures Placed(s', x) {
      assert Placed(s, x);
    }
  }

  lemma {:induction false} TakeCurrent(s: Sched)
    requires Inv(s) && s.current.Some?
    ensures Consistent(s.(current := None), Some(s.current.value))
  {
  }

  lemma {:induction false} EntryCount(procs: map<Pid, Proc>, p: Pid, q: Proc)
    ensures |procs[p := q]| == |procs| + if p in procs then 0 else 1
    ensures procs[p := q].Keys == procs.Keys + {p}
  {
    assert procs[p := q].Keys == procs.Keys + {p};
    assert |procs[p := q]| == |procs[p := q].Keys| && |procs| == |procs.Keys|;
  }

  function WithProc(s: Sched, p: Pid, q: Proc): Sched {
    s.(procs := s.procs[p := q], active := s.active + if p in s.procs then 0 else 1)
  }

  lemma {:induction false} SetLooseQueues(s: Sched, p: Pid, q: Proc, loose: Option<Pid>)
    requires Consistent(s, loose) && Apart(s, p)
    ensures var s' := WithProc(s, p, q);
      && (forall j :: 0 <= j < LEVELS ==> AllIn(s', s'.ready[j], Ready))
      && (forall k, x :: 0 <= k < LEVELS && x in s'.ready[k] ==> s'.procs[x].priority == k)
      && AllIn(s', s'.blocked, Blocked) && AllIn(s', s'.terminated, Terminated)
  {
    var s' := WithProc(s, p, q);
    forall j | 0 <= j < LEVELS ensures AllIn(s', s'.ready[j], Ready) {
      assert AllIn(s, s.ready[j], Ready);
    }
  }

  lemma {:induction false} SetLoosePlaces(s: Sched, p: Pid, q: Proc, loose: Option<Pid>)
    requires Consistent(s, loose) && Apart(s, p) && (loose == None || loose == Some(p))
    ensures var s' := WithProc(s, p, q);
      forall x <- s'.procs | x != p :: Placed(s', x)
  {
    var s' := WithProc(s, p, q);
    forall x <- s'.procs | x != p ensures Placed(s', x) {
      assert Placed(s, x);
    }
  }

  /** A process without a place appears, or its fields change. */
  lemma {:induction false} SetLoose(s: Sched, p: Pid, q: Proc, loose: Option<Pid>)
    requires Consistent(s, loose) && Apart(s, p) && (loose == None || loose == Some(p))
    requires p in s.procs || p < MAX_PROCESSES
    requires q.base <= q.priority < LEVELS
    ensures Consistent(WithProc(s, p, q), Some(p))
  {
    hide AllIn, Placed, Nowhere, Apart;
    SetLooseQueues(s, p, q, loose);
    SetLoosePlaces(s, p, q, loose);
    SetLooseTable(s, p, q, loose);
  }

  lemma {:induction false} SetLooseTable(s: Sched, p: Pid, q: Proc, loose: Option<Pid>)
    requires Consistent(s, loose) && Apart(s, p) && (p in s.procs || p < MAX_PROCESSES) && q.base <= q.priority < LEVELS
    ensures var s' := WithProc(s, p, q);
      && |s'.ready| == LEVELS && Nowhere(s', p) && s'.active == |s'.procs|
      && (s'.current.Some? ==> s'.current.value in s'.procs && s'.procs[s'.current.value].state == Running)
      && (forall x <- s'.procs :: x < MAX_PROCESSES && s'.procs[x].base <= s'.procs[x].priority < LEVELS)
  {
    hide AllIn, Placed;
    EntryCount(s.procs, p, q);
  }

  /** The fields of a process without a place may change. */
  lemma {:induction false} Change(s: Sched, p: Pid, q: Proc)
    requires Consistent(s, Some(p)) && q.base <= q.priority < LEVELS
    ensures Consistent(s.(procs := s.procs[p := q]), Some(p))
  {
    assert Apart(s, p);
    SetLoose(s, p, q, Some(p));
    hide Consistent;
  }

  lemma {:induction false} PutReady(s: Sched, p: Pid)
    requires Consistent(s, Some(p)) && s.procs[p].state == Ready
    ensures Inv(Enqueued(s, p))
  {
    var k := s.procs[p].priority;
    InsertMembers(s.ready[k], p);
    InsertIncreasing(s.ready[k], p);
    var s' := Enqueued(s, p);
    forall x <- s'.procs ensures Placed(s', x) {
      assert x != p ==> Placed(s, x);
    }
  }

  lemma {:induction false} PutBlocked(s: Sched, p: Pid)
    requires Consistent(s, Some(p)) && s.procs[p].state == Blocked
    ensures Inv(s.(blocked := InsertPid(s.blocked, p)))
  {
    InsertMembers(s.blocked, p);
    InsertIncreasing(s.blocked, p);
    var s' := s.(blocked := InsertPid(s.blocked, p));
    forall x <- s'.procs ensures Placed(s', x) {
      assert x != p ==> Placed(s, x);
    }
  }

  lemma {:induction false} PutTerminated(s: Sched, p: Pid)
    requires Consistent(s, Some(p)) && s.procs[p].state == Terminated
    ensures Inv(s.(terminated := InsertPid(s.terminated, p)))
  {
    InsertMembers(s.terminated, p);
    InsertIncreasing(s.terminated, p);
    var s' := s.(terminated := InsertPid(s.terminated, p));
    forall x <- s'.procs ensures Placed(s', x) {
      assert x != p ==> Placed(s, x);
    }
  }

  lemma {:induction false} PutCurrent(s: Sched, p: Pid)
    requires Consistent(s, Some(p)) && s.procs[p].state == Running && s.current == None
    ensures Inv(s.(current := Some(p)))
  {
    var s' := s.(current := Some(p));
    forall x <- s'.procs ensures Placed(s', x) {
      assert x != p ==> Placed(s, x);
    }
  }

  // ---------- every operation keeps the invariant ----------

  lemma {:induction false} Unknown(s: Sched, p: Pid)
    requires Inv(s) && p !in s.procs
    ensures Apart(s, p)
  {
    forall k | 0 <= k < LEVELS ensures p !in s.ready[k] {
      assert AllIn(s, s.ready[k], Ready);
    }
  }

  lemma {:induction false} CreatedKeeps(s: Sched, p: Pid, priority: nat)
    requires Inv(s) && p !in s.procs && p < MAX_PROCESSES
    ensures Inv(Created(s, p, priority))
  {
    var k := Clamp(priority);
    var q := Proc(Ready, k, k, Refill(k), 0, 0);
    Unknown(s, p);
    SetLoose(s, p, q, None);
    PutReady(s.(procs := s.procs[p := q], active := s.active + 1), p);
  }

  lemma {:induction false} ExitedKeeps(s: Sched, p: Pid)
    requires Inv(s)
    ensures Inv(Exited(s, p))
  {
    if p in s.procs && s.current == Some(p) {
      var q := s.procs[p].(state := Terminated);
      TakeCurrent(s);
      var s1 := s.(current := None);
      Change(s1, p, q);
      PutTerminated(s1.(procs := s.procs[p := q]), p);
    }
  }

  lemma {:induction false} FallenAsleepKeeps(s: Sched, p: Pid, q: Proc)
    requires Consistent(s, Some(p)) && q.base <= q.priority < LEVELS && q.state == Blocked
    ensures Inv(FallenAsleep(s, p, q))
  {
    Change(s, p, q);
    PutBlocked(s.(procs := s.procs[p := q]), p);
  }

  lemma {:induction false} SleptKeeps(s: Sched, p: Pid, wait: nat)
    requires Inv(s)
    ensures Inv(Slept(s, p, wait))
  {
    if p in s.procs {
      InvFacts(s, p);
      var k := s.procs[p].priority;
      hide Consistent, InsertPid, RemovePid, FallenAsleep;
      if s.procs[p].state == Ready {
        TakeReady(s, p);
        FallenAsleepKeeps(s.(ready := s.ready[k := RemovePid(s.ready[k], p)]), p, Asleep(s, p, wait));
      } else if s.current == Some(p) {
        TakeCurrent(s);
        FallenAsleepKeeps(s.(current := None), p, Asleep(s, p, wait));
      }
    }
  }

  lemma {:induction false} WokenKeeps(s: Sched, p: Pid)
    requires Inv(s)
    ensures Inv(Woken(s, p))
  {
    if p in s.procs && s.procs[p].state == Blocked {
      var q := s.procs[p].(state := Ready);
      TakeBlocked(s, p);
      var s1 := s.(blocked := RemovePid(s.blocked, p));
      Change(s1, p, q);
      PutReady(s1.(procs := s1.procs[p := q]), p);
    }
  }

  lemma {:induction false} RequeuedKeeps(s: Sched)
    requires Inv(s)
    ensures Inv(Requeued(s)) && Requeued(s).current == None
  {
    if s.current.Some? {
      var p := s.current.value;
      var q' := PutBack(s.procs[p]);
      TakeCurrent(s);
      var s1 := s.(current := None);
      Change(s1, p, q');
      PutReady(s1.(procs := s1.procs[p := q']), p);
    }
  }

  lemma {:induction false} RemoveFirst(q: seq<Pid>)
    requires q != []
    ensures RemovePid(q, q[0]) == q[1..]
  {
  }

  lemma {:induction false} DispatchedKeeps(s: Sched)
    requires Inv(s) && s.current == None
    ensures Inv(Dispatched(s))
  {
    var k := FirstLevel(s.ready, 0);
    if k < |s.ready| {
      var p := s.ready[k][0];
      assert p in s.ready[k];
      RemoveFirst(s.ready[k]);
      TakeReady(s, p);
      var s1 := s.(ready := s.ready[k := s.ready[k][1..]]);
      var q := s.procs[p].(state := Running);
      Change(s1, p, q);
      PutCurrent(s1.(procs := s1.procs[p := q]), p);
    }
  }

  /** The timer interrupt's scheduling step. */
  function Schedule(s: Sched): (r: Sched)
    requires Inv(s)
    ensures Inv(r)
  {
    RequeuedKeeps(s);
    DispatchedKeeps(Requeued(s));
    Dispatched(Requeued(s))
  }

  // ---------- the clock ----------

  function Charged(q: Proc): Proc {
    q.(slice := (q.slice + WORD - 1) % WORD, runtime := (q.runtime + 1) % WORD)
  }

  /** The clock advances and the current process is charged for it. */
  function Advanced(s: Sched): Sched
    requires Inv(s)
  {
    var s1 := s.(ticks := (s.ticks + 1) % WORD);
    if s.current == None then s1
    else s1.(procs := s.procs[s.current.value := Charged(s.procs[s.current.value])])
  }

  predicate Due(s: Sched, p: Pid) {
    p in s.procs && 0 < s.procs[p].wakeup <= s.ticks
  }

  function WakeAll(s: Sched, queue: seq<Pid>): (r: Sched)
    requires Inv(s)
    ensures Inv(r)
    decreases |queue|
  {
    if queue == [] then s
    else if Due(s, queue[0]) then WokenKeeps(s, queue[0]); WakeAll(Woken(s, queue[0]), queue[1..])
    else WakeAll(s, queue[1..])
  }

  function Surviving(procs: map<Pid, Proc>, gone: seq<Pid>): map<Pid, Proc> {
    map p | p in procs && p !in gone :: procs[p]
  }

  function Reaped(s: Sched): Sched {
    s.(procs := Surviving(s.procs, s.terminated), terminated := [],
       active := if s.active >= |s.terminated| then s.active - |s.terminated| else 0)
  }

  function Tick(s: Sched): (r: Sched)
    requires Inv(s)
    ensures Inv(r)
  {
    AdvancedKeeps(s);
    var s1 := Advanced(s);
    var s2 := WakeAll(s1, s1.blocked);
    if s2.ticks % REAP_PERIOD == 0 then ReapedKeeps(s2); Reaped(s2) else s2
  }

  lemma {:induction false} CurrentKnown(s: Sched)
    requires Inv(s) && s.current.Some?
    ensures var p := s.current.value;
      p in s.procs && s.procs[p].state == Running && s.procs[p].base <= s.procs[p].priority < LEVELS
  {
  }

  lemma {:induction false} TimePasses(s: Sched, ticks: nat)
    requires Inv(s)
    ensures Inv(s.(ticks := ticks))
  {
    var s' := s.(ticks := ticks);
    forall j | 0 <= j < LEVELS ensures AllIn(s', s'.ready[j], Ready) {
      assert AllIn(s, s.ready[j], Ready);
    }
    forall p <- s'.procs ensures Placed(s', p) {
      assert Placed(s, p);
    }
  }

  lemma {:induction false} AdvancedKeeps(s: Sched)
    requires Inv(s)
    ensures Inv(Advanced(s)) && Advanced(s).blocked == s.blocked
  {
    hide Consistent;
    if s.current.Some? {
      var p := s.current.value;
      CurrentKnown(s);
      TakeCurrent(s);
      Change(s.(current := None), p, Charged(s.procs[p]));
      PutCurrent(s.(current := None, procs := s.procs[p := Charged(s.procs[p])]), p);
      TimePasses(s.(procs := s.procs[p := Charged(s.procs[p])]), (s.ticks + 1) % WORD);
    } else {
      TimePasses(s, (s.ticks + 1) % WORD);
    }
  }

  lemma {:induction false} ReapedKeeps(s: Sched)
    requires Inv(s)
    ensures Inv(Reaped(s))
  {
    var s' := Reaped(s);
    ReapedCount(s.procs, s.terminated);
    forall j | 0 <= j < LEVELS ensures AllIn(s', s'.ready[j], Ready) {
      assert AllIn(s, s.ready[j], Ready);
    }
    forall x <- s'.procs ensures Placed(s', x) {
      assert Placed(s, x);
    }
  }

  function Members(q: seq<Pid>): set<Pid> {
    if q == [] then {} else {q[0]} + Members(q[1..])
  }

  lemma {:induction false} MembersAre(q: seq<Pid>, p: Pid)
    ensures p in Members(q) <==> p in q
  {
    if q != [] {
      MembersAre(q[1..], p);
      assert q == [q[0]] + q[1..];
    }
  }

  lemma {:induction false} MembersSize(q: seq<Pid>)
    requires Increasing(q)
    ensures |Members(q)| == |q|
  {
    if q != [] {
      IncreasingTail(q);
      MembersSize(q[1..]);
      MembersAre(q[1..], q[0]);
    }
  }

  lemma {:induction false} ReapedCount(procs: map<Pid, Proc>, gone: seq<Pid>)
    requires Increasing(gone) && forall p <- gone :: p in procs
    ensures |Surviving(procs, gone)| == |procs| - |gone|
  {
    MembersSize(gone);
    forall p ensures p in Members(gone) <==> p in gone {
      MembersAre(gone, p);
    }
    var rest := Surviving(procs, gone);
    assert rest.Keys == procs.Keys - Members(gone);
    assert Members(gone) <= procs.Keys;
    assert |rest| == |rest.Keys| && |procs| == |procs.Keys|;
  }

  // ---------- what the invariant means for a process ----------

  /** A process is in the place that its state names, and in no other. */
  lemma {:induction false} OnePlace(s: Sched, p: Pid)
    requires Inv(s) && p in s.procs
    ensures s.current == Some(p) <==> s.procs[p].state == Running
    ensures p in s.blocked <==> s.procs[p].state == Blocked
    ensures p in s.terminated <==> s.procs[p].state == Terminated
    ensures forall k :: 0 <= k < LEVELS ==> (p in s.ready[k] <==> s.procs[p].state == Ready && s.procs[p].priority == k)
  {
    assert Placed(s, p);
    forall k | 0 <= k < LEVELS ensures p in s.ready[k] <==> s.procs[p].state == Ready && s.procs[p].priority == k {
      assert AllIn(s, s.ready[k], Ready);
    }
  }

  // ---------- scheduling ----------

  predicate Runnable(s: Sched, p: Pid) {
    p in s.procs && s.procs[p].state in {Ready, Running}
  }

  /** The policy: what a used-up slice does to a process, and what it leaves alone. */
  predicate Demoted(q: Proc, q': Proc) {
    && q'.base == q.base && q'.wakeup == q.wakeup && q'.runtime == q.runtime
    && if q.slice > 0 then q'.priority == q.priority && q'.slice == q.slice
       else q'.priority == (if q.priority < LEVELS - 1 then q.priority + 1 else q.priority) &&
            q'.slice == SLICE_BASE * (LEVELS - q'.priority)
  }

  predicate SameButState(q: Proc, q': Proc) {
    q' == q.(state := q'.state)
  }

  /** What does not depend on the place of runnable processes. */
  ghost predicate Aside(s: Sched, r: Sched) {
    && r.procs.Keys == s.procs.Keys && r.blocked == s.blocked && r.terminated == s.terminated
    && r.ticks == s.ticks && r.active == s.active
  }

  lemma {:induction false} RequeuedEffects(s: Sched)
    requires Inv(s)
    ensures var r := Requeued(s);
      && Aside(s, r)
      && (forall p <- s.procs :: Some(p) != s.current ==> r.procs[p] == s.procs[p])
      && (s.current.Some? ==> Demoted(s.procs[s.current.value], r.procs[s.current.value]) && r.procs[s.current.value].state == Ready)
  {
    if s.current.Some? {
      InvFacts(s, s.current.value);
      hide Consistent, InsertPid;
      assert Requeued(s).procs.Keys == s.procs.Keys;
    }
  }

  lemma {:induction false} DispatchedEffects(s: Sched)
    requires Inv(s) && s.current == None
    ensures var r := Dispatched(s);
      && Aside(s, r)
      && (forall p <- s.procs :: SameButState(s.procs[p], r.procs[p]) && (Runnable(r, p) <==> Runnable(s, p)))
  {
    var k := FirstLevel(s.ready, 0);
    if k < |s.ready| {
      assert s.ready[k][0] in s.ready[k] && AllIn(s, s.ready[k], Ready);
      hide Consistent, AllIn;
      assert Dispatched(s).procs.Keys == s.procs.Keys;
    }
  }

  /** Scheduling changes no process but the old and the new current one, and loses no runnable process. */
  lemma {:induction false} ScheduleConserves(s: Sched)
    requires Inv(s)
    ensures var r := Schedule(s);
      && Aside(s, r)
      && (forall p <- s.procs :: Runnable(r, p) <==> Runnable(s, p))
      && (forall p <- s.procs :: Some(p) != s.current ==> SameButState(s.procs[p], r.procs[p]))
      && (s.current.Some? ==> Demoted(s.procs[s.current.value], r.procs[s.current.value]))
  {
    hide Consistent, Requeued, Dispatched;
    RequeuedKeeps(s);
    RequeuedEffects(s);
    DispatchedEffects(Requeued(s));
    if s.current.Some? {
      CurrentKnown(s);
    }
  }

  lemma {:induction false} HeadLeast(q: seq<Pid>, p: Pid)
    requires Increasing(q) && p in q
    ensures q[0] <= p
  {
    var i :| 0 <= i < |q| && q[i] == p;
  }

  /**
   The process chosen has the best level of all runnable ones, and the least identifier on that
   level; none is chosen only if none is runnable.
   */
  lemma {:induction false} ScheduleChooses(s: Sched)
    requires Inv(s)
    ensures var r := Schedule(s);
      && (r.current == None ==> forall p <- s.procs :: !Runnable(s, p))
      && (r.current.Some? ==> Runnable(s, r.current.value) && forall p <- s.procs :: Runnable(s, p) ==>
            var c := r.current.value;
            r.procs[c].priority < r.procs[p].priority || (r.procs[c].priority == r.procs[p].priority && c <= p))
  {
    ScheduleConserves(s);
    RequeuedKeeps(s);
    var s1 := Requeued(s);
    forall p | p in s.procs && Runnable(s, p) ensures p in s1.procs && s1.procs[p].state == Ready {
      RunnableWaits(s, p);
    }
    forall p | p in s1.procs && s1.procs[p].state == Ready ensures BeatenBy(s1, p) {
      ReadyBeaten(s1, p);
    }
    DispatchedLevel(s1);
    hide Consistent, Requeued, Dispatched, FirstLevel, PutBack;
  }

  /** A runnable process is in a ready queue once the current one is put back. */
  lemma {:induction false} RunnableWaits(s: Sched, p: Pid)
    requires Inv(s) && p in s.procs && Runnable(s, p)
    ensures p in Requeued(s).procs && Requeued(s).procs[p].state == Ready
  {
    OnePlace(s, p);
    RequeuedEffects(s);
    hide Consistent, Requeued;
  }

  /** The head of the first non-empty ready queue comes before `p`. */
  ghost predicate BeatenBy(s: Sched, p: Pid)
    requires Inv(s) && p in s.procs
  {
    var k := FirstLevel(s.ready, 0);
    && k < |s.ready| && s.ready[k] != []
    && (k < s.procs[p].priority || (k == s.procs[p].priority && s.ready[k][0] <= p))
  }

  lemma {:induction false} ReadyBeaten(s: Sched, p: Pid)
    requires Inv(s) && p in s.procs && s.procs[p].state == Ready
    ensures BeatenBy(s, p)
  {
    assert Placed(s, p);
    var k := s.procs[p].priority;
    assert AllIn(s, s.ready[k], Ready);
    HeadLeast(s.ready[k], p);
  }

  lemma {:induction false} DispatchedLevel(s: Sched)
    requires Inv(s) && s.current == None
    ensures var k, r := FirstLevel(s.ready, 0), Dispatched(s);
      if k < |s.ready| then
        && s.ready[k] != [] && r.current == Some(s.ready[k][0])
        && s.ready[k][0] in s.procs && s.procs[s.ready[k][0]].priority == k && s.procs[s.ready[k][0]].state == Ready
        && (forall p <- s.procs :: p in r.procs && r.procs[p].priority == s.procs[p].priority)
      else r.current == None && r.procs == s.procs
  {
    var k := FirstLevel(s.ready, 0);
    if k < |s.ready| {
      assert s.ready[k][0] in s.ready[k] && AllIn(s, s.ready[k], Ready);
    }
    hide Consistent, AllIn;
  }

  // ---------- the scan of the blocked queue ----------

  /** The members of a queue whose time has not come, in order. */
  function StillAsleep(s: Sched, queue: seq<Pid>): seq<Pid> {
    if queue == [] then []
    else if Due(s, queue[0]) then StillAsleep(s, queue[1..])
    else [queue[0]] + StillAsleep(s, queue[1..])
  }

  lemma {:induction false} StillAsleepSame(s: Sched, s': Sched, queue: seq<Pid>)
    requires s'.procs.Keys == s.procs.Keys && forall p <- s.procs :: s'.procs[p].wakeup == s.procs[p].wakeup
    requires s.ticks == s'.ticks
    ensures StillAsleep(s', queue) == StillAsleep(s, queue)
  {
    if queue != [] {
      StillAsleepSame(s, s', queue[1..]);
    }
  }

  lemma {:induction false} RemoveMiddle(a: seq<Pid>, b: seq<Pid>)
    requires b != [] && b[0] !in a
    ensures RemovePid(a + b, b[0]) == a + b[1..]
  {
    if a == [] {
      assert a + b == b && a + b[1..] == b[1..];
    } else {
      assert (a + b)[0] == a[0] && (a + b)[1..] == a[1..] + b;
      RemoveMiddle(a[1..], b);
      assert [a[0]] + (a[1..] + b[1..]) == a + b[1..];
    }
  }

  /** What waking the due members of `queue` does to one process. */
  ghost predicate WokenRight(s: Sched, r: Sched, queue: seq<Pid>, p: Pid) {
    p in s.procs ==>
      && p in r.procs
      && r.procs[p] == if p in queue && Due(s, p) then s.procs[p].(state := Ready) else s.procs[p]
  }

  /** `r` is `s` after the members of `queue`, the end of the blocked queue, have been looked at. */
  ghost predicate Scanned(s: Sched, r: Sched, kept: seq<Pid>, queue: seq<Pid>) {
    && r.blocked == kept + StillAsleep(s, queue)
    && r.procs.Keys == s.procs.Keys
    && (forall p :: WokenRight(s, r, queue, p))
    && r.current == s.current && r.terminated == s.terminated && r.ticks == s.ticks && r.active == s.active
  }

  lemma {:induction false} ScanFrom(s: Sched, kept: seq<Pid>, queue: seq<Pid>)
    requires Inv(s) && s.blocked == kept + queue
    ensures Scanned(s, WakeAll(s, queue), kept, queue)
    decreases |queue|
  {
    if queue == [] {
      assert kept + [] == kept;
    } else {
      QueueSplit(kept, queue);
      if Due(s, queue[0]) {
        WokenKeeps(s, queue[0]);
        WokenEffects(s, kept, queue);
        ScanFrom(Woken(s, queue[0]), kept, queue[1..]);
        ScanWoke(s, Woken(s, queue[0]), WakeAll(s, queue), kept, queue);
      } else {
        assert kept + queue == (kept + [queue[0]]) + queue[1..];
        ScanFrom(s, kept + [queue[0]], queue[1..]);
        ScanSkipped(s, WakeAll(s, queue), kept, queue);
      }
    }
  }

  lemma {:induction false} WokenEffects(s: Sched, kept: seq<Pid>, queue: seq<Pid>)
    requires Inv(s) && queue != [] && s.blocked == kept + queue && queue[0] !in kept
    ensures var p, r := queue[0], Woken(s, queue[0]);
      && p in s.procs && r.procs == s.procs[p := s.procs[p].(state := Ready)]
      && r.blocked == kept + queue[1..]
      && r.current == s.current && r.terminated == s.terminated && r.ticks == s.ticks && r.active == s.active
  {
    assert queue[0] in s.blocked;
    assert AllIn(s, s.blocked, Blocked);
    RemoveMiddle(kept, queue);
    hide Consistent, AllIn, RemovePid, InsertPid;
  }

  lemma {:induction false} ScanWoke(s: Sched, s1: Sched, r: Sched, kept: seq<Pid>, queue: seq<Pid>)
    requires queue != [] && Due(s, queue[0]) && queue[0] !in queue[1..]
    requires s1.procs == s.procs[queue[0] := s.procs[queue[0]].(state := Ready)]
    requires s1.current == s.current && s1.terminated == s.terminated && s1.ticks == s.ticks && s1.active == s.active
    requires Scanned(s1, r, kept, queue[1..])
    ensures Scanned(s, r, kept, queue)
  {
    assert s1.procs.Keys == s.procs.Keys;
    StillAsleepSame(s, s1, queue[1..]);
    assert queue == [queue[0]] + queue[1..];
    forall p ensures WokenRight(s, r, queue, p) {
      assert WokenRight(s1, r, queue[1..], p);
    }
  }

  lemma {:induction false} ScanSkipped(s: Sched, r: Sched, kept: seq<Pid>, queue: seq<Pid>)
    requires queue != [] && !Due(s, queue[0]) && Scanned(s, r, kept + [queue[0]], queue[1..])
    ensures Scanned(s, r, kept, queue)
  {
    assert queue == [queue[0]] + queue[1..];
    assert (kept + [queue[0]]) + StillAsleep(s, queue[1..]) == kept + StillAsleep(s, queue);
    forall p ensures WokenRight(s, r, queue, p) {
      assert WokenRight(s, r, queue[1..], p);
    }
  }

  lemma {:induction false} QueueSplit(kept: seq<Pid>, queue: seq<Pid>)
    requires Increasing(kept + queue) && queue != []
    ensures queue[0] !in kept && queue[0] !in queue[1..]
  {
    var s := kept + queue;
    assert s[|kept|] == queue[0];
    forall i | 0 <= i < |kept| ensures kept[i] != queue[0] {
      assert s[i] == kept[i];
    }
    forall i | 0 <= i < |queue[1..]| ensures queue[1..][i] != queue[0] {
      assert s[|kept| + 1 + i] == queue[1..][i];
    }
  }

  /**
   A tick's scan wakes exactly the blocked processes whose time has come: each is then in the ready
   queue of its own level, the others stay blocked in their order, and nothing else changes.
   */
  lemma {:induction false} ScanExact(s: Sched)
    requires Inv(s)
    ensures var r := WakeAll(s, s.blocked);
      && r.blocked == StillAsleep(s, s.blocked)
      && r.procs.Keys == s.procs.Keys
      && (forall p :: WokenRight(s, r, s.blocked, p))
      && (forall k, p :: 0 <= k < LEVELS && p in s.procs ==>
            (p in r.ready[k] <==> p in s.ready[k] || (p in s.blocked && Due(s, p) && s.procs[p].priority == k)))
      && r.current == s.current && r.terminated == s.terminated && r.ticks == s.ticks && r.active == s.active
  {
    assert s.blocked == [] + s.blocked;
    ScanFrom(s, [], s.blocked);
    var r := WakeAll(s, s.blocked);
    assert [] + StillAsleep(s, s.blocked) == StillAsleep(s, s.blocked);
    forall k, p | 0 <= k < LEVELS && p in s.procs
      ensures p in r.ready[k] <==> p in s.ready[k] || (p in s.blocked && Due(s, p) && s.procs[p].priority == k)
    {
      OnePlace(s, p);
      OnePlace(r, p);
      assert WokenRight(s, r, s.blocked, p);
    }
  }

  /** A tick removes exactly the terminated processes, and only when the clock says so. */
  lemma {:induction false} TickRemoves(s: Sched, p: Pid)
    requires Inv(s)
    ensures Tick(s).ticks == (s.ticks + 1) % WORD
    ensures p in Tick(s).procs <==>
      p in s.procs && !(Tick(s).ticks % 100 == 0 && s.procs[p].state == Terminated)
  {
    AdvancedKeeps(s);
    AdvancedTable(s, p);
    var s1 := Advanced(s);
    ScanExact(s1);
    if p in s.procs {
      OnePlace(s, p);
      assert WokenRight(s1, WakeAll(s1, s1.blocked), s1.blocked, p);
    }
    hide Consistent, WakeAll, Advanced, StillAsleep, WokenRight, Due;
  }

  lemma {:induction false} AdvancedTable(s: Sched, p: Pid)
    requires Inv(s)
    ensures var r := Advanced(s);
      && r.procs.Keys == s.procs.Keys && r.terminated == s.terminated && r.ticks == (s.ticks + 1) % WORD
      && (p in s.procs ==> r.procs[p].state == s.procs[p].state)
  {
  }

  // ---------- each operation in terms of the state before it ----------

  /** The time of the next tick. */
  function Next(s: Sched): nat {
    (s.ticks + 1) % WORD
  }

  /** At time `t` process `p` is blocked and its time has come. */
  predicate Wakes(s: Sched, p: Pid, t: nat) {
    p in s.procs && s.procs[p].state == Blocked && 0 < s.procs[p].wakeup <= t
  }

  /** What a tick makes of one process. */
  function Ticked(s: Sched, p: Pid, t: nat): Proc
    requires p in s.procs
  {
    var q := s.procs[p];
    if s.current == Some(p) then q.(slice := (q.slice + WORD - 1) % WORD, runtime := (q.runtime + 1) % WORD)
    else if Wakes(s, p, t) then q.(state := Ready)
    else q
  }

  lemma {:induction false} AdvancedProcess(s: Sched, p: Pid)
    requires Inv(s) && p in s.procs
    ensures var r, q := Advanced(s), s.procs[p];
      && p in r.procs && r.ticks == Next(s) && r.blocked == s.blocked && r.current == s.current && r.terminated == s.terminated
      && r.procs[p] == (if s.current == Some(p) then Charged(q) else q)
      && (p in r.blocked && Due(r, p) <==> Wakes(s, p, Next(s)))
  {
    hide Consistent;
    OnePlace(s, p);
    AdvancedTable(s, p);
    AdvancedRest(s);
  }

  /**
   A tick charges the current process, wakes exactly the blocked processes whose time has come, and
   changes no other field of a process that stays.
   */
  lemma {:induction false} TickProcess(s: Sched, p: Pid)
    requires Inv(s) && p in Tick(s).procs
    ensures p in s.procs && Tick(s).procs[p] == Ticked(s, p, Next(s))
  {
    hide Consistent, WakeAll, Advanced, Due, Tick;
    TickRemoves(s, p);
    AdvancedKeeps(s);
    AdvancedProcess(s, p);
    TickedFromScan(s, p);
    OnePlace(s, p);
  }

  lemma {:induction false} TickedFromScan(s: Sched, p: Pid)
    requires Inv(s) && p in Tick(s).procs && p in s.procs
    ensures Inv(Advanced(s)) && p in Advanced(s).procs
    ensures var s1 := Advanced(s);
      Tick(s).procs[p] == if p in s1.blocked && Due(s1, p) then s1.procs[p].(state := Ready) else s1.procs[p]
  {
    AdvancedKeeps(s);
    AdvancedProcess(s, p);
    var s1 := Advanced(s);
    hide Consistent, WakeAll, Advanced, Due, StillAsleep;
    ScanExact(s1);
    assert WokenRight(s1, WakeAll(s1, s1.blocked), s1.blocked, p);
  }

  /** After a tick the woken are in the ready queue of their level, and the others where they were. */
  lemma {:induction false} TickPlaces(s: Sched, p: Pid)
    requires Inv(s) && p in s.procs
    ensures var r, t := Tick(s), Next(s);
      && (p in r.blocked <==> p in s.blocked && !Wakes(s, p, t))
      && (forall k :: 0 <= k < LEVELS ==> (p in r.ready[k] <==> p in s.ready[k] || (Wakes(s, p, t) && s.procs[p].priority == k)))
  {
    var r := Tick(s);
    TickRemoves(s, p);
    OnePlace(s, p);
    if p in r.procs {
      TickProcess(s, p);
      OnePlace(r, p);
    } else {
      Absent(r, p);
    }
    hide Consistent, Tick;
  }

  lemma {:induction false} Absent(s: Sched, p: Pid)
    requires Inv(s) && p !in s.procs
    ensures p !in s.blocked && forall k :: 0 <= k < LEVELS ==> p !in s.ready[k]
  {
    Unknown(s, p);
  }

  /** What a tick leaves alone: the current process, and the order of those that stay blocked. */
  lemma {:induction false} TickRest(s: Sched)
    requires Inv(s)
    ensures var r, t := Tick(s), Next(s);
      && r.ticks == t && r.current == s.current
      && r.terminated == (if t % 100 == 0 then [] else s.terminated)
      && r.blocked == StillBlocked(s, s.blocked, t)
  {
    hide Consistent, Tick, Advanced, StillAsleep, StillBlocked;
    AdvancedKeeps(s);
    AdvancedRest(s);
    TickedRest(s);
    StillBlockedSame(s, Advanced(s), s.blocked);
  }

  lemma {:induction false} AdvancedRest(s: Sched)
    requires Inv(s)
    ensures var r := Advanced(s);
      r.ticks == Next(s) && r.blocked == s.blocked && r.current == s.current && r.terminated == s.terminated
  {
  }

  lemma {:induction false} TickedRest(s: Sched)
    requires Inv(s)
    ensures Inv(Advanced(s))
    ensures var r, s1 := Tick(s), Advanced(s);
      && r.ticks == s1.ticks && r.current == s1.current && r.blocked == StillAsleep(s1, s1.blocked)
      && r.terminated == (if s1.ticks % 100 == 0 then [] else s1.terminated)
  {
    AdvancedKeeps(s);
    hide Consistent, WakeAll, Advanced, StillAsleep;
    ScanExact(Advanced(s));
    hide WokenRight, Surviving;
  }

  /** The members of a queue that do not wake at time `t`, in order. */
  function StillBlocked(s: Sched, queue: seq<Pid>, t: nat): seq<Pid> {
    if queue == [] then []
    else if Wakes(s, queue[0], t) then StillBlocked(s, queue[1..], t)
    else [queue[0]] + StillBlocked(s, queue[1..], t)
  }

  lemma {:induction false} StillBlockedSame(s: Sched, s1: Sched, queue: seq<Pid>)
    requires Inv(s) && s1 == Advanced(s) && forall p <- queue :: p in s.blocked
    ensures StillAsleep(s1, queue) == StillBlocked(s, queue, Next(s))
  {
    if queue != [] {
      var p := queue[0];
      assert p in queue;
      assert p in s.procs by {
        assert AllIn(s, s.blocked, Blocked);
      }
      AdvancedProcess(s, p);
      StillBlockedSame(s, s1, queue[1..]);
    }
  }

  /** A new process is ready, on the level asked for or the last one, with a full slice and no past. */
  lemma {:induction false} CreatedLaw(s: Sched, p: Pid, priority: nat)
    requires Inv(s) && p !in s.procs && p < MAX_PROCESSES
    ensures var r, level := Created(s, p, priority), if priority < 16 then priority else 15;
      && Inv(r) && r.procs.Keys == s.procs.Keys + {p}
      && r.procs[p].state == Ready && r.procs[p].base == r.procs[p].priority == level && p in r.ready[level]
      && r.procs[p].slice == 10 * (16 - level) && r.procs[p].runtime == r.procs[p].wakeup == 0
      && (forall x <- s.procs :: r.procs[x] == s.procs[x])
      && r.current == s.current && r.ticks == s.ticks && r.active == s.active + 1
  {
    CreatedKeeps(s, p, priority);
    OnePlace(Created(s, p, priority), p);
    hide Consistent, InsertPid;
  }

  /** Ending makes the current process terminated and leaves no current one. */
  lemma {:induction false} ExitedLaw(s: Sched, p: Pid)
    requires Inv(s) && s.current == Some(p)
    ensures var r := Exited(s, p);
      && Inv(r) && r.current == None && r.procs.Keys == s.procs.Keys && p in r.procs && p in r.terminated
      && r.procs[p] == s.procs[p].(state := Terminated)
      && (forall x <- s.procs :: x != p ==> r.procs[x] == s.procs[x])
      && r.ready == s.ready && r.blocked == s.blocked && r.ticks == s.ticks
  {
    hide Consistent, InsertPid;
    CurrentKnown(s);
    ExitedKeeps(s, p);
    OnePlace(Exited(s, p), p);
    assert s.procs.Keys + {p} == s.procs.Keys;
  }

  /** Blocking a ready or the current process sets when it wakes up, and leaves any other alone. */
  lemma {:induction false} SleptLaw(s: Sched, p: Pid, wait: nat)
    requires Inv(s)
    ensures var r := Slept(s, p, wait);
      if p in s.procs && s.procs[p].state in {Ready, Running} then
        && Inv(r) && r.procs.Keys == s.procs.Keys && p in r.procs && p in r.blocked
        && r.procs[p] == s.procs[p].(state := Blocked, wakeup := (s.ticks + wait) % 0x1_0000_0000)
        && (forall x <- s.procs :: x != p ==> r.procs[x] == s.procs[x])
        && r.current == (if s.current == Some(p) then None else s.current)
        && r.terminated == s.terminated && r.ticks == s.ticks
      else r == s
  {
    hide Consistent, Slept;
    if p in s.procs && s.procs[p].state in {Ready, Running} {
      SleptKeeps(s, p, wait);
      SleptFields(s, p, wait);
      OnePlace(Slept(s, p, wait), p);
      assert s.procs.Keys + {p} == s.procs.Keys;
    } else {
      SleptOther(s, p, wait);
    }
  }

  lemma {:induction false} SleptOther(s: Sched, p: Pid, wait: nat)
    requires Inv(s) && (p in s.procs ==> s.procs[p].state !in {Ready, Running})
    ensures Slept(s, p, wait) == s
  {
    if p in s.procs {
      InvFacts(s, p);
    }
    hide Consistent, RemovePid, FallenAsleep;
  }

  lemma {:induction false} SleptFields(s: Sched, p: Pid, wait: nat)
    requires Inv(s) && p in s.procs && s.procs[p].state in {Ready, Running}
    ensures var r := Slept(s, p, wait);
      && r.procs == s.procs[p := Asleep(s, p, wait)]
      && r.current == (if s.current == Some(p) then None else s.current)
      && r.terminated == s.terminated && r.ticks == s.ticks
  {
    InvFacts(s, p);
    hide Consistent, InsertPid, RemovePid;
  }

  /** Waking makes a blocked process ready on its own level, and leaves any other alone. */
  lemma {:induction false} WokenLaw(s: Sched, p: Pid)
    requires Inv(s)
    ensures var r := Woken(s, p);
      if p in s.procs && s.procs[p].state == Blocked then
        && Inv(r) && r.procs.Keys == s.procs.Keys && p in r.procs
        && r.procs[p] == s.procs[p].(state := Ready) && s.procs[p].priority < LEVELS && p in r.ready[s.procs[p].priority]
        && (forall x <- s.procs :: x != p ==> r.procs[x] == s.procs[x])
        && r.current == s.current && r.terminated == s.terminated && r.ticks == s.ticks
      else r == s
  {
    if p in s.procs && s.procs[p].state == Blocked {
      InvFacts(s, p);
      WokenKeeps(s, p);
      OnePlace(Woken(s, p), p);
    }
    hide Consistent, InsertPid, RemovePid;
  }

  // ---------- runs ----------

  datatype Op = Create(priority: nat) | Exit | Sleep(p: Pid, wait: nat) | Wake(p: Pid) | Preempt | Clock

  /** A new process under the least free identifier, if there is one. */
  function Spawned(s: Sched, priority: nat): (r: Sched)
    requires Inv(s)
    ensures Inv(r)
  {
    match FreePid(s.procs, 0)
    case None => s
    case Some(p) => CreatedKeeps(s, p, priority); Created(s, p, priority)
  }

  function Step(s: Sched, op: Op): (r: Sched)
    requires Inv(s)
    ensures Inv(r)
  {
    match op
    case Create(priority) => Spawned(s, priority)
    case Exit => if s.current == None then s else ExitedKeeps(s, s.current.value); Exited(s, s.current.value)
    case Sleep(p, wait) => SleptKeeps(s, p, wait); Slept(s, p, wait)
    case Wake(p) => WokenKeeps(s, p); Woken(s, p)
    case Preempt => Schedule(s)
    case Clock => Tick(s)
  }

  function EmptyQueues(n: nat): (r: seq<seq<Pid>>)
    ensures |r| == n && forall k :: 0 <= k < n ==> r[k] == []
  {
    if n == 0 then [] else EmptyQueues(n - 1) + [[]]
  }

  function Start(): Sched {
    Sched(map[], EmptyQueues(LEVELS), [], [], None, 0, 0)
  }

  /** The state after a run that begins with no process. */
  function After(ops: seq<Op>): (r: Sched)
    ensures Inv(r)
  {
    if ops == [] then Start() else Step(After(ops[..|ops| - 1]), ops[|ops| - 1])
  }

  /** In every run each process is in exactly the place its state names, with its priority in range. */
  lemma {:induction false} RunInvariant(ops: seq<Op>, p: Pid)
    requires p in After(ops).procs
    ensures var s := After(ops);
      && (s.current == Some(p) <==> s.procs[p].state == Running)
      && (p in s.blocked <==> s.procs[p].state == Blocked)
      && (p in s.terminated <==> s.procs[p].state == Terminated)
      && (forall k :: 0 <= k < LEVELS ==> (p in s.ready[k] <==> s.procs[p].state == Ready && s.procs[p].priority == k))
      && s.procs[p].base <= s.procs[p].priority < LEVELS
      && s.active == |s.procs| <= MAX_PROCESSES
  {
    OnePlace(After(ops), p);
    KeysBound(After(ops).procs);
  }

  lemma {:induction false} KeysBound(procs: map<Pid, Proc>)
    requires forall p <- procs :: p < MAX_PROCESSES
    ensures |procs| <= MAX_PROCESSES
  {
    BoundedSet(procs.Keys, MAX_PROCESSES);
    assert |procs| == |procs.Keys|;
  }

  lemma {:induction false} BoundedSet(s: set<Pid>, n: nat)
    requires forall p <- s :: p < n
    ensures |s| <= n
  {
    if n > 0 {
      BoundedSet(s - {n - 1}, n - 1);
    } else {
      assert s == {};
    }
  }

  /** A new process can be created exactly if there are fewer than the greatest number of them. */
  lemma {:induction false} SpawnedUnlessFull(s: Sched)
    requires Inv(s)
    ensures FreePid(s.procs, 0) == None <==> s.active == 64
  {
    hide Consistent, FreePid;
    TableFacts(s);
    if FreePid(s.procs, 0) == None {
      AllBelow(s.procs.Keys, MAX_PROCESSES);
    } else {
      var p := FreePid(s.procs, 0).value;
      EntryCount(s.procs, p, Proc(Ready, 0, 0, 0, 0, 0));
      KeysBound(s.procs[p := Proc(Ready, 0, 0, 0, 0, 0)]);
    }
  }

  lemma {:induction false} TableFacts(s: Sched)
    requires Inv(s)
    ensures s.active == |s.procs| == |s.procs.Keys| && forall p <- s.procs :: p < MAX_PROCESSES
  {
  }

  lemma {:induction false} AllBelow(s: set<Pid>, n: nat)
    requires forall p: nat :: p in s <==> p < n
    ensures |s| == n
  {
    if n > 0 {
      AllBelow(s - {n - 1}, n - 1);
    } else {
      assert s == {};
    }
  }

  // ---------- the process table determines the queues ----------

  lemma {:induction false} IncreasingUnique(a: seq<Pid>, b: seq<Pid>)
    requires Increasing(a) && Increasing(b) && forall p :: p in a <==> p in b
    ensures a == b
  {
    assert a != [] ==> a[0] in b;
    assert b != [] ==> b[0] in a;
    if a != [] && b != [] {
      HeadLeast(a, b[0]);
      HeadLeast(b, a[0]);
      IncreasingTail(a);
      IncreasingTail(b);
      assert a == [a[0]] + a[1..] && b == [b[0]] + b[1..];
      forall p ensures p in a[1..] <==> p in b[1..] {
        assert p in a <==> p == a[0] || p in a[1..];
        assert p in b <==> p == b[0] || p in b[1..];
      }
      IncreasingUnique(a[1..], b[1..]);
    }
  }

  ghost predicate SameStanding(s: Sched, r: Sched) {
    s.procs.Keys == r.procs.Keys &&
    forall p <- s.procs :: s.procs[p].state == r.procs[p].state && s.procs[p].priority == r.procs[p].priority
  }

  /** Where everything is, and in which order, depends only on the states and levels of the processes. */
  lemma {:induction false} TableDetermines(s: Sched, r: Sched)
    requires Inv(s) && Inv(r) && SameStanding(s, r)
    ensures s.ready == r.ready && s.blocked == r.blocked && s.terminated == r.terminated
    ensures s.current == r.current && s.active == r.active
  {
    assert |s.procs| == |s.procs.Keys| == |r.procs|;
    forall p | p in s.procs
      ensures (p in s.blocked <==> p in r.blocked) && (p in s.terminated <==> p in r.terminated)
      ensures s.current == Some(p) <==> r.current == Some(p)
      ensures forall k :: 0 <= k < LEVELS ==> (p in s.ready[k] <==> p in r.ready[k])
    {
      OnePlace(s, p);
      OnePlace(r, p);
    }
    forall k | 0 <= k < LEVELS ensures s.ready[k] == r.ready[k] {
      assert AllIn(s, s.ready[k], Ready) && AllIn(r, r.ready[k], Ready);
      IncreasingUnique(s.ready[k], r.ready[k]);
    }
    assert s.ready == r.ready;
    IncreasingUnique(s.blocked, r.blocked);
    IncreasingUnique(s.terminated, r.terminated);
  }

  /** Waking undoes blocking: a ready process is back in its place, with nothing but its wake-up time changed. */
  lemma {:induction false} SleepThenWake(s: Sched, p: Pid, wait: nat)
    requires Inv(s) && p in s.procs && s.procs[p].state == Ready
    ensures Inv(Slept(s, p, wait))
    ensures Woken(Slept(s, p, wait), p)
         == s.(procs := s.procs[p := s.procs[p].(wakeup := (s.ticks + wait) % WORD)])
  {
    hide Slept, Woken, Consistent;
    var z := Asleep(s, p, wait);
    var q := s.procs[p].(wakeup := z.wakeup);
    SleptKeeps(s, p, wait);
    SleptTable(s, p, wait);
    var s1 := Slept(s, p, wait);
    WokenKeeps(s1, p);
    WokenTable(s1, p);
    assert z.(state := Ready) == q;
    assert Woken(s1, p).procs == s.procs[p := q];
    TableDetermines(Woken(s1, p), s);
  }

  lemma {:induction false} SleptTable(s: Sched, p: Pid, wait: nat)
    requires Inv(s) && p in s.procs && s.procs[p].state == Ready
    ensures Slept(s, p, wait).procs == s.procs[p := Asleep(s, p, wait)] && Slept(s, p, wait).ticks == s.ticks
  {
    InvFacts(s, p);
    hide Consistent, InsertPid, RemovePid;
  }

  lemma {:induction false} WokenTable(s: Sched, p: Pid)
    requires Inv(s) && p in s.procs && s.procs[p].state == Blocked
    ensures Woken(s, p).procs == s.procs[p := s.procs[p].(state := Ready)] && Woken(s, p).ticks == s.ticks
  {
    InvFacts(s, p);
    hide Consistent, InsertPid, RemovePid;
  }
}
