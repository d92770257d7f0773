/**
 The shared admission counter as an interleaved step system. Any number of tasks run
 try_acquire, acquire_owned, permit drops and limit changes; every atomic operation of
 the source is one action, and all operations are sequentially consistent.
 */
module Capacity {

  /** Where a task stands between two atomic operations. */
  datatype Pc =
    | Idle
    | Enter              // top of the acquire loop, not registered as a waiter
    | Try                // about to load the counter
    | Loaded(seen: nat)  // counter loaded, about to load the limit
    | Swap(seen: nat)    // below the limit when checked, about to compare and exchange
    | Parked             // acquire found no room and awaits its notification
    | Notifying          // counter decremented or limit stored, waiters not yet notified

  /** waiter: inside acquire_owned and registered; notified: its wakeup has arrived. */
  datatype Task = Task(pc: Pc, waiter: bool, notified: bool)

  /** permits counts the live Permit values; highest is the largest limit ever set. */
  datatype State = State(active: nat, limit: nat, permits: nat, tasks: seq<Task>, highest: nat)

  datatype Action =
    | StartTry(t: nat)
    | StartAcquire(t: nat)
    | Register(t: nat)
    | Load(t: nat)
    | Check(t: nat)
    | Exchange(t: nat)
    | Wake(t: nat)
    | Cancel(t: nat)
    | DropPermit(t: nat)
    | SetLimit(t: nat, value: nat)
    | NotifyWaiters(t: nat)

  function Init(limit: nat, n: nat): State {
    State(0, limit, 0, seq(n, _ => Task(Idle, false, false)), limit)
  }

  predicate Enabled(s: State, a: Action) {
    && a.t < |s.tasks|
    && var pc := s.tasks[a.t].pc;
       match a
       case StartTry(_) => pc.Idle?
       case StartAcquire(_) => pc.Idle?
       case Register(_) => pc.Enter?
       case Load(_) => pc.Try?
       case Check(_) => pc.Loaded?
       case Exchange(_) => pc.Swap?
       case Wake(_) => pc.Parked? && s.tasks[a.t].notified
       case Cancel(_) => pc.Parked?
       case DropPermit(_) => pc.Idle? && s.permits > 0
       case SetLimit(_, _) => pc.Idle?
       case NotifyWaiters(_) => pc.Notifying?
  }

  function Put(s: State, t: nat, task: Task): State
    requires t < |s.tasks|
  {
    s.(tasks := s.tasks[t := task])
  }

  function Max(a: nat, b: nat): nat { if a < b then b else a }

  const DONE := Task(Idle, false, false)

  /** What one atomic operation does. */
  function Step(s: State, a: Action): State
    requires Enabled(s, a)
  {
    var task := s.tasks[a.t];
    match a
    case StartTry(t) => Put(s, t, Task(Try, false, false))
    case StartAcquire(t) => Put(s, t, Task(Enter, false, false))
    case Register(t) => Put(s, t, Task(Try, true, false))
    case Load(t) => Put(s, t, task.(pc := Loaded(s.active)))
    case Check(t) =>
      if task.pc.seen < s.limit then Put(s, t, task.(pc := Swap(task.pc.seen)))
      else if task.waiter then Put(s, t, task.(pc := Parked))
      else Put(s, t, DONE)
    case Exchange(t) =>
      if s.active == task.pc.seen then
        Put(s, t, DONE).(active := s.active + 1, permits := s.permits + 1)
      else Put(s, t, task.(pc := Loaded(s.active)))
    case Wake(t) => Put(s, t, Task(Enter, false, false))
    case Cancel(t) => Put(s, t, DONE)
    case DropPermit(t) =>
      Put(s, t, Task(Notifying, false, false))
      .(permits := s.permits - 1, active := if s.active > 0 then s.active - 1 else 0)
    case SetLimit(t, value) =>
      Put(s, t, Task(Notifying, false, false)).(limit := value, highest := Max(s.highest, value))
    case NotifyWaiters(t) =>
      s.(tasks := seq(|s.tasks|, u requires 0 <= u < |s.tasks| =>
        if u == t then DONE else s.tasks[u].(notified := s.tasks[u].notified || s.tasks[u].waiter)))
  }

  /** A finite interleaving: each action is enabled where it happens. */
  ghost predicate Possible(s: State, run: seq<Action>)
    decreases |run|
  {
    run == [] || (Enabled(s, run[0]) && Possible(Step(s, run[0]), run[1..]))
  }

  ghost function After(s: State, run: seq<Action>): State
    requires Possible(s, run)
    decreases |run|
  {
    if run == [] then s else After(Step(s, run[0]), run[1..])
  }

  // ---------------------------------------------------------------- invariant

  /** Some task has changed the counter or the limit and still owes its notification. */
  ghost predicate Owed(s: State) {
    exists u :: 0 <= u < |s.tasks| && s.tasks[u].pc.Notifying?
  }

  /** What an un-notified waiter may rely on at its program point. */
  predicate Justified(s: State, task: Task) {
    match task.pc
    case Loaded(seen) => s.active >= seen
    case Swap(seen) => s.active >= seen
    case Parked => s.active >= s.limit
    case _ => true
  }

  predicate Shaped(s: State, task: Task) {
    && (task.pc.Parked? ==> task.waiter)
    && (task.waiter ==> task.pc.Try? || task.pc.Loaded? || task.pc.Swap? || task.pc.Parked?)
    && (task.pc.Swap? ==> task.pc.seen < s.highest)
  }

  ghost predicate Inv(s: State) {
    && s.active == s.permits
    && s.active <= s.highest && s.limit <= s.highest
    && (forall u :: 0 <= u < |s.tasks| ==> Shaped(s, s.tasks[u]))
    && (forall u :: 0 <= u < |s.tasks| && s.tasks[u].waiter && !s.tasks[u].notified ==>
          Justified(s, s.tasks[u]) || Owed(s))
  }

  /** A task other than the acting one keeps its place; its flag may only be raised. */
  lemma OthersKept(s: State, a: Action, u: nat)
    requires Enabled(s, a) && u < |s.tasks| && u != a.t
    ensures |Step(s, a).tasks| == |s.tasks|
    ensures Step(s, a).tasks[u].pc == s.tasks[u].pc && Step(s, a).tasks[u].waiter == s.tasks[u].waiter
    ensures s.tasks[u].notified ==> Step(s, a).tasks[u].notified
    ensures a.NotifyWaiters? && s.tasks[u].waiter ==> Step(s, a).tasks[u].notified
  {
  }

  /** Only a notification discharges what is owed; every decrement or store owes one. */
  lemma OwedKept(s: State, a: Action)
    requires Enabled(s, a)
    ensures Owed(s) && !a.NotifyWaiters? ==> Owed(Step(s, a))
    ensures a.DropPermit? || a.SetLimit? ==> Owed(Step(s, a))
  {
    if Owed(s) && !a.NotifyWaiters? {
      var u: nat :| u < |s.tasks| && s.tasks[u].pc.Notifying?;
      assert Step(s, a).tasks[u].pc.Notifying?;
    }
    if a.DropPermit? || a.SetLimit? {
      assert Step(s, a).tasks[a.t].pc.Notifying?;
    }
  }

  lemma WaiterStep(s: State, a: Action, u: nat)
    requires Inv(s) && Enabled(s, a) && u < |s.tasks|
    requires Step(s, a).tasks[u].waiter && !Step(s, a).tasks[u].notified
    ensures Justified(Step(s, a), Step(s, a).tasks[u]) || Owed(Step(s, a))
  {
    OwedKept(s, a);
    if u != a.t {
      OthersKept(s, a, u);
    }
  }

  /** Every action keeps the invariant. */
  lemma StepInv(s: State, a: Action)
    requires Inv(s) && Enabled(s, a)
    ensures Inv(Step(s, a))
  {
    var s' := Step(s, a);
    forall u: nat | u < |s'.tasks| ensures Shaped(s', s'.tasks[u]) {
      assert Shaped(s, s.tasks[u]) && Shaped(s, s.tasks[a.t]);
    }
    forall u: nat | u < |s'.tasks| && s'.tasks[u].waiter && !s'.tasks[u].notified
      ensures Justified(s', s'.tasks[u]) || Owed(s')
    {
      WaiterStep(s, a, u);
    }
  }

  lemma {:induction false} RunInv(s: State, run: seq<Action>)
    requires Inv(s) && Possible(s, run)
    ensures Inv(After(s, run))
    decreases |run|
  {
    if run != [] {
      StepInv(s, run[0]);
      RunInv(Step(s, run[0]), run[1..]);
    }
  }

  // ---------------------------------------------------------------- theorems

  /**
   No lost wakeup: in every interleaving, a waiter parked without a notification exists
   only while there is no room or while some task still owes a notification.
   */
  lemma NoLostWakeup(limit: nat, n: nat, run: seq<Action>, t: nat)
    requires Possible(Init(limit, n), run)
    ensures var s := After(Init(limit, n), run);
            t < |s.tasks| && s.tasks[t].pc.Parked? && !s.tasks[t].notified ==> s.active >= s.limit || Owed(s)
  {
    RunInv(Init(limit, n), run);
  }

  /** Once nothing is owed, a waiter parked without a notification means that there is no room. */
  lemma QuietMeansFull(limit: nat, n: nat, run: seq<Action>, t: nat)
    requires Possible(Init(limit, n), run)
    requires var s := After(Init(limit, n), run);
             t < |s.tasks| && s.tasks[t].pc.Parked? && !s.tasks[t].notified && !Owed(s)
    ensures var s := After(Init(limit, n), run); s.active >= s.limit
  {
    NoLostWakeup(limit, n, run, t);
  }

  /** The largest limit set at creation or by an action. */
  ghost function Highest(limit: nat, run: seq<Action>): nat {
    if run == [] then limit
    else
      var last := run[|run| - 1];
      var h := Highest(limit, run[..|run| - 1]);
      if last.SetLimit? then Max(h, last.value) else h
  }

  lemma {:induction false} RunSplit(s: State, run: seq<Action>, k: nat)
    requires Possible(s, run) && k <= |run|
    ensures Possible(s, run[..k]) && Possible(After(s, run[..k]), run[k..])
    ensures After(After(s, run[..k]), run[k..]) == After(s, run)
    decreases |run|
  {
    if k == 0 {
      assert run[0..] == run && run[..0] == [];
    } else {
      RunSplit(Step(s, run[0]), run[1..], k - 1);
      assert run[..k][1..] == run[1..][..k - 1] && run[..k][0] == run[0];
      assert run[1..][k - 1..] == run[k..];
    }
  }

  lemma LastStep(s: State, run: seq<Action>)
    requires Possible(s, run) && run != []
    ensures var init := run[..|run| - 1];
            && Possible(s, init) && Enabled(After(s, init), run[|run| - 1])
            && After(s, run) == Step(After(s, init), run[|run| - 1])
  {
    RunSplit(s, run, |run| - 1);
    assert run[|run| - 1..] == [run[|run| - 1]];
  }

  lemma {:induction false} HighestIsTracked(limit: nat, n: nat, run: seq<Action>)
    requires Possible(Init(limit, n), run)
    ensures After(Init(limit, n), run).highest == Highest(limit, run)
    decreases |run|
  {
    if run != [] {
      LastStep(Init(limit, n), run);
      HighestIsTracked(limit, n, run[..|run| - 1]);
    }
  }

  /** Admission is bounded by the largest limit ever in force, and drops never underflow. */
  lemma AdmissionBound(limit: nat, n: nat, run: seq<Action>)
    requires Possible(Init(limit, n), run)
    ensures var s := After(Init(limit, n), run); s.active == s.permits <= Highest(limit, run)
  {
    RunInv(Init(limit, n), run);
    HighestIsTracked(limit, n, run);
  }

  /** The exchanges of the run that find the counter as it was loaded. */
  ghost function Won(s: State, run: seq<Action>): nat
    requires Possible(s, run)
    decreases |run|
  {
    if run == [] then 0
    else
      Won(Step(s, run[0]), run[1..])
      + if run[0].Exchange? && s.tasks[run[0].t].pc == Swap(s.active) then 1 else 0
  }

  ghost function Dropped(run: seq<Action>): nat
    decreases |run|
  {
    if run == [] then 0 else Dropped(run[1..]) + if run[0].DropPermit? then 1 else 0
  }

  lemma {:induction false} PermitsAreConserved(s: State, run: seq<Action>)
    requires Inv(s) && Possible(s, run)
    ensures After(s, run).permits + Dropped(run) == s.permits + Won(s, run)
    decreases |run|
  {
    if run != [] {
      StepInv(s, run[0]);
      PermitsAreConserved(Step(s, run[0]), run[1..]);
    }
  }

  /** In every run the counter is the number of exchanges won less the number of permits dropped. */
  lemma CounterIsBalance(limit: nat, n: nat, run: seq<Action>)
    requires Possible(Init(limit, n), run)
    ensures After(Init(limit, n), run).active == Won(Init(limit, n), run) - Dropped(run)
  {
    RunInv(Init(limit, n), run);
    PermitsAreConserved(Init(limit, n), run);
  }

  /** No limit change of the run lowers the limit in force where it happens. */
  ghost predicate NeverLowered(s: State, run: seq<Action>)
    requires Possible(s, run)
    decreases |run|
  {
    run == [] || ((run[0].SetLimit? ==> run[0].value >= s.limit) && NeverLowered(Step(s, run[0]), run[1..]))
  }

  lemma {:induction false} RisingLimit(s: State, run: seq<Action>)
    requires Possible(s, run) && s.highest == s.limit && NeverLowered(s, run)
    ensures After(s, run).highest == After(s, run).limit
    decreases |run|
  {
    if run != [] {
      RisingLimit(Step(s, run[0]), run[1..]);
    }
  }

  /** While the limit only rises, the counter never exceeds the limit in force. */
  lemma WithinLimitWhileRising(limit: nat, n: nat, run: seq<Action>)
    requires Possible(Init(limit, n), run) && NeverLowered(Init(limit, n), run)
    ensures After(Init(limit, n), run).active <= After(Init(limit, n), run).limit
  {
    RunInv(Init(limit, n), run);
    RisingLimit(Init(limit, n), run);
  }

  /** The limit in force after the actions: the last one set, else the one before. */
  ghost function LastLimit(limit: nat, run: seq<Action>): nat
    decreases |run|
  {
    if run == [] then limit else LastLimit(if run[0].SetLimit? then run[0].value else limit, run[1..])
  }

  /** While a task does nothing, it keeps its place and the limit follows the actions of the others. */
  lemma {:induction false} TaskRests(s: State, run: seq<Action>, t: nat)
    requires Possible(s, run) && t < |s.tasks| && forall k :: 0 <= k < |run| ==> run[k].t != t
    ensures var s' := After(s, run);
            t < |s'.tasks| && s'.tasks[t].pc == s.tasks[t].pc && s'.limit == LastLimit(s.limit, run)
    decreases |run|
  {
    if run != [] {
      OthersKept(s, run[0], t);
      TaskRests(Step(s, run[0]), run[1..], t);
    }
  }

  /** An acquisition from its check to its exchange, with the actions of other tasks in between. */
  function Acquisition(t: nat, others: seq<Action>): seq<Action> {
    [Check(t)] + others + [Exchange(t)]
  }

  lemma AcquisitionParts(s: State, t: nat, others: seq<Action>)
    requires Possible(s, Acquisition(t, others))
    ensures Enabled(s, Check(t)) && Possible(Step(s, Check(t)), others)
    ensures var e := After(Step(s, Check(t)), others);
            Enabled(e, Exchange(t)) && After(s, Acquisition(t, others)) == Step(e, Exchange(t))
  {
    var run := Acquisition(t, others);
    assert run[0] == Check(t) && run[1..] == others + [Exchange(t)];
    LastStep(Step(s, run[0]), run[1..]);
    assert run[1..][..|others|] == others && run[1..][|others|] == Exchange(t);
  }

  /**
   When a grant respects the limit. A task that found the counter below the limit and whose
   exchange succeeds is granted exactly one permit, and the counter is then within the limit in
   force if and only if what it saw is below the last limit set between its check and its exchange.
   */
  lemma GrantWithinLimit(s: State, t: nat, others: seq<Action>)
    requires t < |s.tasks| && s.tasks[t].pc.Loaded? && s.tasks[t].pc.seen < s.limit
    requires Possible(s, Acquisition(t, others)) && forall k :: 0 <= k < |others| ==> others[k].t != t
    requires Possible(Step(s, Check(t)), others)
             && After(Step(s, Check(t)), others).active == s.tasks[t].pc.seen
    ensures var e, s' := After(Step(s, Check(t)), others), After(s, Acquisition(t, others));
            && s'.active == s.tasks[t].pc.seen + 1 && s'.permits == e.permits + 1
            && (s'.active <= s'.limit <==> s.tasks[t].pc.seen < LastLimit(s.limit, others))
  {
    AcquisitionParts(s, t, others);
    TaskRests(Step(s, Check(t)), others, t);
  }

  const LOWERED: seq<Action> :=
    [StartTry(0), Load(0), Check(0), SetLimit(1, 0), NotifyWaiters(1), Exchange(0)]

  /** Such a lowering is possible: the permit is granted above the limit then in force. */
  lemma LoweringCanOvershoot()
    ensures Possible(Init(1, 2), LOWERED)
    ensures After(Init(1, 2), LOWERED).active > After(Init(1, 2), LOWERED).limit
  {
    var s0 := Init(1, 2);
    var s1 := Step(s0, LOWERED[0]);
    var s2 := Step(s1, LOWERED[1]);
    var s3 := Step(s2, LOWERED[2]);
    var s4 := Step(s3, LOWERED[3]);
    var s5 := Step(s4, LOWERED[4]);
    var s6 := Step(s5, LOWERED[5]);
    Unroll(s5, LOWERED, 5);
    Unroll(s4, LOWERED, 4);
    Unroll(s3, LOWERED, 3);
    Unroll(s2, LOWERED, 2);
    Unroll(s1, LOWERED, 1);
    Unroll(s0, LOWERED, 0);
  }

  /** Reads one more action off the front of a suffix. */
  lemma Unroll(s: State, run: seq<Action>, k: nat)
    requires k < |run| && Enabled(s, run[k]) && Possible(Step(s, run[k]), run[k + 1..])
    ensures Possible(s, run[k..]) && After(s, run[k..]) == After(Step(s, run[k]), run[k + 1..])
    ensures run[0..] == run
  {
    assert run[k..][0] == run[k] && run[k..][1..] == run[k + 1..];
  }

  /** The actions by which a notified waiter goes round its loop once. */
  function Round(t: nat): seq<Action> {
    [Wake(t), Register(t), Load(t), Check(t), Exchange(t)]
  }

  /** A notified waiter that runs while there is room takes a permit in one round. */
  lemma NotifiedWaiterSucceeds(s: State, t: nat)
    requires Inv(s) && t < |s.tasks| && s.tasks[t].pc.Parked? && s.tasks[t].notified && s.active < s.limit
    ensures Possible(s, Round(t))
    ensures After(s, Round(t)).permits == s.permits + 1
    ensures t < |After(s, Round(t)).tasks| && After(s, Round(t)).tasks[t].pc.Idle?
  {
    var r := Round(t);
    var s1 := Step(s, r[0]);
    var s2 := Step(s1, r[1]);
    var s3 := Step(s2, r[2]);
    var s4 := Step(s3, r[3]);
    var s5 := Step(s4, r[4]);
    Unroll(s4, r, 4);
    Unroll(s3, r, 3);
    Unroll(s2, r, 2);
    Unroll(s1, r, 1);
    Unroll(s, r, 0);
  }

  /**
   No reachable state strands a waiter: whenever there is room and a task is parked, at most
   one owed notification followed by the task's own round gives it a permit.
   */
  lemma WaiterIsNeverStranded(limit: nat, n: nat, run: seq<Action>, t: nat)
    requires Possible(Init(limit, n), run)
    requires var s := After(Init(limit, n), run); t < |s.tasks| && s.tasks[t].pc.Parked? && s.active < s.limit
    ensures var s := After(Init(limit, n), run);
            || (Possible(s, Round(t)) && After(s, Round(t)).permits == s.permits + 1)
            || exists u :: && Enabled(s, NotifyWaiters(u))
                           && Possible(Step(s, NotifyWaiters(u)), Round(t))
                           && After(Step(s, NotifyWaiters(u)), Round(t)).permits == s.permits + 1
  {
    var s := After(Init(limit, n), run);
    RunInv(Init(limit, n), run);
    if s.tasks[t].notified {
      NotifiedWaiterSucceeds(s, t);
    } else {
      assert Shaped(s, s.tasks[t]);
      assert Owed(s);
      var u: nat :| u < |s.tasks| && s.tasks[u].pc.Notifying?;
      assert Enabled(s, NotifyWaiters(u));
      StepInv(s, NotifyWaiters(u));
      NotifiedWaiterSucceeds(Step(s, NotifyWaiters(u)), t);
    }
  }

  /** Action k of the run grants or returns a permit. */
  ghost predicate Moves(s: State, run: seq<Action>, k: nat) {
    && k < |run| && Possible(s, run[..k]) && Enabled(After(s, run[..k]), run[k])
    && var before, after := After(s, run[..k]), Step(After(s, run[..k]), run[k]);
       after.active != before.active && after.permits != before.permits
  }

  /** What the task remembers of the counter is its value. */
  predicate Current(task: Task, seen: nat) {
    (task.pc.Loaded? || task.pc.Swap?) ==> task.pc.seen == seen
  }

  lemma {:induction false} CounterMoves(s: State, run: seq<Action>, t: nat) returns (k: nat)
    requires Possible(s, run) && t < |s.tasks| && Current(s.tasks[t], s.active)
    requires var s' := After(s, run); t < |s'.tasks| && !Current(s'.tasks[t], s'.active)
    ensures Moves(s, run, k)
    decreases |run|
  {
    if Step(s, run[0]).active != s.active {
      k := 0;
      assert run[..0] == [];
    } else {
      var i := CounterMoves(Step(s, run[0]), run[1..], t);
      k := i + 1;
      assert run[..k][1..] == run[1..][..i] && run[..k][0] == run[0];
    }
  }

  /**
   Lock freedom: a task that loaded the counter, first or after a failed exchange, finds its
   exchange failing only because in between some action granted or returned a permit; if the
   task did nothing but its check, that action was another task's.
   */
  lemma FailedExchangeMeansProgress(s: State, t: nat, run: seq<Action>)
    requires t < |s.tasks| && s.tasks[t].pc == Loaded(s.active) && Possible(s, run)
    requires var e := After(s, run); Enabled(e, Exchange(t)) && e.tasks[t].pc.seen != e.active
    ensures exists k: nat :: Moves(s, run, k)
                             && ((forall i :: 0 <= i < |run| && run[i].t == t ==> run[i] == Check(t)) ==> run[k].t != t)
  {
    var k := CounterMoves(s, run, t);
    assert Moves(s, run, k) && run[k] != Check(t);
  }

  // ---------------------------------------------------------------- how acquisitions end

  /** Inside acquire_owned: about to register, or registered and trying or parked. */
  predicate Acquiring(task: Task) {
    task.pc.Enter? || (task.waiter && (task.pc.Try? || task.pc.Loaded? || task.pc.Swap? || task.pc.Parked?))
  }

  /** Inside a plain try_acquire. */
  predicate Trying(task: Task) {
    !task.waiter && (task.pc.Try? || task.pc.Loaded? || task.pc.Swap?)
  }

  /** The action grants the task one permit. */
  predicate Grants(s: State, a: Action, t: nat)
    requires Enabled(s, a)
  {
    && a == Exchange(t) && Step(s, a).active == s.active + 1 && Step(s, a).permits == s.permits + 1
    && Step(s, a).limit == s.limit
  }

  /** acquire_owned goes on until it is granted a permit or is cancelled while parked. */
  lemma AcquireStep(s: State, a: Action, t: nat)
    requires Enabled(s, a) && t < |s.tasks| && Acquiring(s.tasks[t])
    ensures |Step(s, a).tasks| == |s.tasks|
    ensures || Acquiring(Step(s, a).tasks[t])
            || (Step(s, a).tasks[t] == DONE && (Grants(s, a, t) || (a == Cancel(t) && s.tasks[t].pc.Parked?)))
  {
    if a.t != t {
      OthersKept(s, a, t);
    }
  }

  /** try_acquire goes on until it is granted a permit or its check sees no room. */
  lemma TryStep(s: State, a: Action, t: nat)
    requires Enabled(s, a) && t < |s.tasks| && Trying(s.tasks[t])
    ensures |Step(s, a).tasks| == |s.tasks|
    ensures || Trying(Step(s, a).tasks[t])
            || (Step(s, a).tasks[t] == DONE
                && (Grants(s, a, t) || (a == Check(t) && s.tasks[t].pc.seen >= s.limit && Step(s, a).permits == s.permits)))
  {
    if a.t != t {
      OthersKept(s, a, t);
    }
  }

  /** The task is busy after every proper prefix of the run. */
  ghost predicate BusyUntil(s: State, run: seq<Action>, t: nat)
    requires Possible(s, run)
    decreases |run|
  {
    run == [] || (t < |s.tasks| && !s.tasks[t].pc.Idle? && BusyUntil(Step(s, run[0]), run[1..], t))
  }

  /** The state in which the last action of the run happens. */
  ghost function BeforeLast(s: State, run: seq<Action>): State
    requires Possible(s, run) && run != []
    decreases |run|
  {
    if |run| == 1 then s else BeforeLast(Step(s, run[0]), run[1..])
  }

  lemma {:induction false} AcquiringEnds(s: State, run: seq<Action>, t: nat)
    requires Possible(s, run) && run != [] && t < |s.tasks| && Acquiring(s.tasks[t]) && BusyUntil(s, run, t)
    requires t < |After(s, run).tasks| && After(s, run).tasks[t].pc.Idle?
    ensures var e, last := BeforeLast(s, run), run[|run| - 1];
            Enabled(e, last) && After(s, run) == Step(e, last) && (Grants(e, last, t) || last == Cancel(t))
    decreases |run|
  {
    AcquireStep(s, run[0], t);
    if |run| == 1 {
      assert run[1..] == [];
    } else {
      AcquiringEnds(Step(s, run[0]), run[1..], t);
    }
  }

  lemma {:induction false} TryingEnds(s: State, run: seq<Action>, t: nat)
    requires Possible(s, run) && run != [] && t < |s.tasks| && Trying(s.tasks[t]) && BusyUntil(s, run, t)
    requires t < |After(s, run).tasks| && After(s, run).tasks[t].pc.Idle?
    ensures var e, last := BeforeLast(s, run), run[|run| - 1];
            && Enabled(e, last) && After(s, run) == Step(e, last)
            && (Grants(e, last, t) || (last == Check(t) && e.tasks[t].pc.seen >= e.limit))
    decreases |run|
  {
    TryStep(s, run[0], t);
    if |run| == 1 {
      assert run[1..] == [];
    } else {
      TryingEnds(Step(s, run[0]), run[1..], t);
    }
  }

  /**
   However the tasks interleave, an acquisition that was started comes back only with a permit
   or by cancellation, and a try only with a permit or by a check that saw the counter at or
   above the limit.
   */
  lemma AcquisitionsEndAsPromised(s: State, start: Action, run: seq<Action>)
    requires (start.StartAcquire? || start.StartTry?) && Enabled(s, start)
    requires Possible(Step(s, start), run) && run != [] && BusyUntil(Step(s, start), run, start.t)
    requires start.t < |After(Step(s, start), run).tasks| && After(Step(s, start), run).tasks[start.t].pc.Idle?
    ensures var e, last := BeforeLast(Step(s, start), run), run[|run| - 1];
            && Enabled(e, last) && After(Step(s, start), run) == Step(e, last)
            && (|| Grants(e, last, start.t)
                || (start.StartAcquire? && last == Cancel(start.t))
                || (start.StartTry? && last == Check(start.t) && e.tasks[start.t].pc.seen >= e.limit))
  {
    if start.StartAcquire? {
      AcquiringEnds(Step(s, start), run, start.t);
    } else {
      TryingEnds(Step(s, start), run, start.t);
    }
  }

  /** A wakeup arrives only from a notification while registered. */
  lemma WakeupNeedsNotification(s: State, a: Action, t: nat)
    requires Enabled(s, a) && t < |s.tasks| && t < |Step(s, a).tasks| && Step(s, a).tasks[t].notified
    ensures s.tasks[t].notified || (a.NotifyWaiters? && s.tasks[t].waiter)
  {
  }

  /** No spurious wakeup: a task that was not notified and is after a run was notified by one of its actions. */
  lemma {:induction false} NoSpuriousWakeup(s: State, run: seq<Action>, t: nat)
    requires Possible(s, run) && t < |s.tasks| && !s.tasks[t].notified
    ensures |After(s, run).tasks| == |s.tasks|
    ensures After(s, run).tasks[t].notified ==> exists k :: 0 <= k < |run| && run[k].NotifyWaiters? && run[k].t != t
    decreases |run|
  {
    if run != [] {
      if Step(s, run[0]).tasks[t].notified {
        WakeupNeedsNotification(s, run[0], t);
        assert run[0].NotifyWaiters? && run[0].t != t;
        LengthKept(Step(s, run[0]), run[1..]);
      } else {
        NoSpuriousWakeup(Step(s, run[0]), run[1..], t);
        if exists k :: 0 <= k < |run| - 1 && run[1..][k].NotifyWaiters? && run[1..][k].t != t {
          var k :| 0 <= k < |run| - 1 && run[1..][k].NotifyWaiters? && run[1..][k].t != t;
          assert run[k + 1].NotifyWaiters? && run[k + 1].t != t;
        }
      }
    }
  }

  lemma {:induction false} LengthKept(s: State, run: seq<Action>)
    requires Possible(s, run)
    ensures |After(s, run).tasks| == |s.tasks|
    decreases |run|
  {
    if run != [] {
      LengthKept(Step(s, run[0]), run[1..]);
    }
  }

  // ---------------------------------------------------------------- progress of one task

  /** What the task does next when it runs alone: load, check, exchange, and again after a lost exchange. */
  function Solo(s: State, t: nat): seq<Action>
    requires t < |s.tasks|
  {
    match s.tasks[t].pc
    case Try => [Load(t), Check(t), Exchange(t)]
    case Loaded(seen) => [Check(t)] + (if seen == s.active then [Exchange(t)] else [Exchange(t), Check(t), Exchange(t)])
    case Swap(seen) => if seen == s.active then [Exchange(t)] else [Exchange(t), Check(t), Exchange(t)]
    case _ => []
  }

  /** The task has yet to load the counter, or what it loaded left room. */
  predicate SawRoom(s: State, task: Task) {
    task.pc.Try? || task.pc.Swap? || (task.pc.Loaded? && task.pc.seen < s.limit)
  }

  /** The run is possible, grants exactly one permit and ends the task's acquisition. */
  ghost predicate Obtains(s: State, run: seq<Action>, t: nat) {
    && Possible(s, run)
    && var e := After(s, run);
       e.permits == s.permits + 1 && e.active == s.active + 1 && t < |e.tasks| && e.tasks[t] == DONE
  }

  lemma Granted(s: State, t: nat)
    requires t < |s.tasks| && s.tasks[t].pc == Swap(s.active)
    ensures Obtains(s, [Exchange(t)], t)
  {
    assert [Exchange(t)][1..] == [];
  }

  lemma Prepended(s: State, a: Action, rest: seq<Action>, t: nat)
    requires Enabled(s, a) && Obtains(Step(s, a), rest, t)
    requires Step(s, a).permits == s.permits && Step(s, a).active == s.active
    ensures Obtains(s, [a] + rest, t)
  {
    assert ([a] + rest)[0] == a && ([a] + rest)[1..] == rest;
  }

  /** A task at its compare-and-exchange gets a permit alone while there is room, retrying once if it lost. */
  lemma SwapSucceeds(s: State, t: nat)
    requires t < |s.tasks| && s.tasks[t].pc.Swap? && s.active < s.limit
    ensures Obtains(s, Solo(s, t), t)
  {
    if s.tasks[t].pc.seen == s.active {
      Granted(s, t);
    } else {
      var s1 := Step(s, Exchange(t));
      var s2 := Step(s1, Check(t));
      Granted(s2, t);
      Prepended(s1, Check(t), [Exchange(t)], t);
      Prepended(s, Exchange(t), [Check(t)] + [Exchange(t)], t);
      assert [Exchange(t)] + ([Check(t)] + [Exchange(t)]) == Solo(s, t);
    }
  }

  lemma LoadedSucceeds(s: State, t: nat)
    requires t < |s.tasks| && s.tasks[t].pc.Loaded? && s.tasks[t].pc.seen < s.limit && s.active < s.limit
    ensures Obtains(s, Solo(s, t), t)
  {
    var s1 := Step(s, Check(t));
    SwapSucceeds(s1, t);
    Prepended(s, Check(t), Solo(s1, t), t);
    assert [Check(t)] + Solo(s1, t) == Solo(s, t);
  }

  lemma TrySucceeds(s: State, t: nat)
    requires t < |s.tasks| && s.tasks[t].pc.Try? && s.active < s.limit
    ensures Obtains(s, Solo(s, t), t)
  {
    var s1 := Step(s, Load(t));
    LoadedSucceeds(s1, t);
    Prepended(s, Load(t), Solo(s1, t), t);
    assert [Load(t)] + Solo(s1, t) == Solo(s, t);
  }

  /**
   While there is room, a task that has seen room obtains a permit by its own actions alone. One
   that loaded a counter at the limit does not: its check fails, and a registered waiter then
   has its notification, or one is owed.
   */
  lemma SoloSucceeds(s: State, t: nat)
    requires Inv(s) && t < |s.tasks| && s.active < s.limit
    requires s.tasks[t].pc.Try? || s.tasks[t].pc.Loaded? || s.tasks[t].pc.Swap?
    ensures SawRoom(s, s.tasks[t]) ==> Obtains(s, Solo(s, t), t)
    ensures !SawRoom(s, s.tasks[t]) ==>
              && Enabled(s, Check(t)) && Step(s, Check(t)).permits == s.permits
              && Step(s, Check(t)).tasks[t] == (if s.tasks[t].waiter then s.tasks[t].(pc := Parked) else DONE)
              && (s.tasks[t].waiter ==> s.tasks[t].notified || Owed(s))
  {
    match s.tasks[t].pc
    case Swap(_) => SwapSucceeds(s, t);
    case Try => TrySucceeds(s, t);
    case Loaded(seen) =>
      if seen < s.limit {
        LoadedSucceeds(s, t);
      }
  }
}
