/** The accept loop, its two semaphores and the connection tasks, as a transition
    system over every interleaving (src/server.rs). */
module AcceptLoop {
  import opened Text
  import opened Numerals

  /** A connection task: serving, or past its drain signal but not yet dropped, or
      over; a task whose connection panicked is dropped without the signal. */
  datatype Task = Running | Signalled | Over | Panicked

  datatype Phase = Accepting | Draining | Returned | Broken

  /** `slots` counts the free permits of the connection cap, `drain` the drain
      permits. */
  datatype Server = Server(phase: Phase, slots: nat, drain: nat, spawned: nat, tasks: seq<Task>, rejected: nat)

  datatype Step =
    | Accept
    | AcceptFails
    | Finish(i: nat)
    | Drop(i: nat)
    | Panic(i: nat)
    | Shutdown
    | Return

  /** A cap of zero means no cap. */
  function Start(cap: nat): Server {
    Server(Accepting, cap, 0, 0, [], 0)
  }

  /** The spawn counter saturates. */
  function Saturated(n: nat): nat {
    if n < MAX_U32 then n + 1 else MAX_U32
  }

  predicate IsEnabled(s: Server, step: Step) {
    match step
    case Accept => s.phase == Accepting
    case AcceptFails => s.phase == Accepting
    case Finish(i) => i < |s.tasks| && s.tasks[i] == Running
    case Drop(i) => i < |s.tasks| && s.tasks[i] == Signalled
    case Panic(i) => i < |s.tasks| && s.tasks[i] == Running
    case Shutdown => s.phase == Accepting
    case Return => s.phase == Draining && s.drain >= s.spawned
  }

  function Take(cap: nat, s: Server, step: Step): Server
    requires IsEnabled(s, step)
  {
    match step
    case Accept =>
      if cap > 0 && s.slots == 0 then s.(rejected := s.rejected + 1)
      else s.(slots := if cap > 0 then s.slots - 1 else s.slots,
              spawned := Saturated(s.spawned), tasks := s.tasks + [Running])
    case AcceptFails => s.(phase := Broken)
    case Finish(i) => s.(tasks := s.tasks[i := Signalled], drain := s.drain + 1)
    case Drop(i) => s.(tasks := s.tasks[i := Over], slots := if cap > 0 then s.slots + 1 else s.slots)
    case Panic(i) => s.(tasks := s.tasks[i := Panicked], slots := if cap > 0 then s.slots + 1 else s.slots)
    case Shutdown => s.(phase := if s.spawned > 0 then Draining else Returned)
    case Return => s.(phase := Returned)
  }

  /** The state after the steps; None when one of them cannot happen. */
  function After(cap: nat, steps: seq<Step>): Option<Server> {
    if steps == [] then Some(Start(cap))
    else
      var n := |steps| - 1;
      var before := After(cap, steps[..n]);
      if before.Some? && IsEnabled(before.value, steps[n]) then Some(Take(cap, before.value, steps[n])) else None
  }

  // ---- Counting tasks -----------------------------------------------------

  function Count(tasks: seq<Task>, p: Task -> bool): (n: nat)
    ensures n <= |tasks|
  {
    if tasks == [] then 0 else Count(tasks[..|tasks| - 1], p) + if p(tasks[|tasks| - 1]) then 1 else 0
  }

  lemma {:induction false} CountMore(tasks: seq<Task>, t: Task, p: Task -> bool)
    ensures Count(tasks + [t], p) == Count(tasks, p) + if p(t) then 1 else 0
  {
    assert (tasks + [t])[..|tasks|] == tasks;
  }

  lemma {:induction false} CountChanged(tasks: seq<Task>, i: nat, t: Task, p: Task -> bool)
    requires i < |tasks|
    ensures Count(tasks[i := t], p) + (if p(tasks[i]) then 1 else 0) == Count(tasks, p) + (if p(t) then 1 else 0)
    decreases |tasks|
  {
    var n := |tasks| - 1;
    var rest := tasks[..n];
    if i == n {
      assert tasks[i := t][..n] == rest;
    } else {
      CountChanged(rest, i, t, p);
      assert tasks[i := t][..n] == rest[i := t];
    }
  }

  lemma {:induction false} CountAll(tasks: seq<Task>, p: Task -> bool)
    ensures Count(tasks, p) == |tasks| <==> forall i :: 0 <= i < |tasks| ==> p(tasks[i])
  {
    if tasks != [] {
      var n := |tasks| - 1;
      CountAll(tasks[..n], p);
      assert forall i :: 0 <= i < n ==> tasks[..n][i] == tasks[i];
    }
  }

  lemma {:induction false} CountMost(tasks: seq<Task>, p: Task -> bool, q: Task -> bool)
    requires forall t :: p(t) ==> q(t)
    ensures Count(tasks, p) <= Count(tasks, q)
  {
    if tasks != [] {
      CountMost(tasks[..|tasks| - 1], p, q);
    }
  }

  lemma {:induction false} CountRest(tasks: seq<Task>, p: Task -> bool, q: Task -> bool)
    requires forall t :: q(t) == !p(t)
    ensures Count(tasks, p) + Count(tasks, q) == |tasks|
  {
    if tasks != [] {
      CountRest(tasks[..|tasks| - 1], p, q);
    }
  }

  /** Holds a permit of the connection cap. */
  predicate HoldsSlot(t: Task) {
    t == Running || t == Signalled
  }

  predicate HasSignalled(t: Task) {
    t == Signalled || t == Over
  }

  predicate IsUnfinished(t: Task) {
    !HasSignalled(t)
  }

  predicate IsRunning(t: Task) {
    t == Running
  }

  // ---- What every step keeps ----------------------------------------------

  ghost predicate Invariant(cap: nat, s: Server) {
    && (cap > 0 ==> s.slots + Count(s.tasks, HoldsSlot) == cap)
    && s.drain == Count(s.tasks, HasSignalled)
    && s.spawned == (if |s.tasks| <= MAX_U32 then |s.tasks| else MAX_U32)
    && (s.phase == Returned ==> s.drain >= s.spawned)
  }

  lemma {:induction false} StepKeeps(cap: nat, s: Server, step: Step)
    requires Invariant(cap, s) && IsEnabled(s, step)
    ensures Invariant(cap, Take(cap, s, step))
  {
    match step
    case Accept =>
      CountMore(s.tasks, Running, HoldsSlot);
      CountMore(s.tasks, Running, HasSignalled);
    case Finish(i) =>
      CountChanged(s.tasks, i, Signalled, HoldsSlot);
      CountChanged(s.tasks, i, Signalled, HasSignalled);
    case Drop(i) =>
      CountChanged(s.tasks, i, Over, HoldsSlot);
      CountChanged(s.tasks, i, Over, HasSignalled);
    case Panic(i) =>
      CountChanged(s.tasks, i, Panicked, HoldsSlot);
      CountChanged(s.tasks, i, Panicked, HasSignalled);
    case AcceptFails =>
    case Shutdown =>
    case Return =>
  }

  lemma {:induction false} RunKeeps(cap: nat, steps: seq<Step>)
    requires After(cap, steps).Some?
    ensures Invariant(cap, After(cap, steps).value)
  {
    if steps != [] {
      var n := |steps| - 1;
      RunKeeps(cap, steps[..n]);
      StepKeeps(cap, After(cap, steps[..n]).value, steps[n]);
    }
  }

  // ---- Every interleaving -------------------------------------------------

  /** A connection is turned away if and only if there is a cap and so many connections
      hold a permit; otherwise it is served. */
  lemma {:induction false} RejectsExactly(cap: nat, steps: seq<Step>)
    requires After(cap, steps).Some? && After(cap, steps).value.phase == Accepting
    ensures var s := After(cap, steps).value;
            var full, t := cap > 0 && Count(s.tasks, HoldsSlot) == cap, Take(cap, s, Accept);
            && t.tasks == s.tasks + (if full then [] else [Running])
            && t.rejected == s.rejected + if full then 1 else 0
  {
    RunKeeps(cap, steps);
    var s := After(cap, steps).value;
    assert s.tasks + [] == s.tasks;
  }

  /** Live connections never exceed a non-zero cap, and the free permits are the
      rest of it. */
  lemma {:induction false} CapIsKept(cap: nat, steps: seq<Step>)
    requires cap > 0 && After(cap, steps).Some?
    ensures var s := After(cap, steps).value;
            Count(s.tasks, IsRunning) <= cap && s.slots == cap - Count(s.tasks, HoldsSlot)
  {
    RunKeeps(cap, steps);
    CountMost(After(cap, steps).value.tasks, IsRunning, HoldsSlot);
  }

  /** Drain permits and unfinished tasks together are the spawn counter, as long as
      that has not saturated. */
  lemma {:induction false} PermitsAreConserved(cap: nat, steps: seq<Step>)
    requires After(cap, steps).Some? && |After(cap, steps).value.tasks| <= MAX_U32
    ensures var s := After(cap, steps).value; s.drain + Count(s.tasks, IsUnfinished) == s.spawned
  {
    RunKeeps(cap, steps);
    CountRest(After(cap, steps).value.tasks, HasSignalled, IsUnfinished);
  }

  /** The server waits for exactly the unfinished tasks: it may return, and has
      returned, only when every task has signalled. */
  lemma {:induction false} ReturnsAfterAll(cap: nat, steps: seq<Step>)
    requires After(cap, steps).Some? && |After(cap, steps).value.tasks| <= MAX_U32
    ensures var s := After(cap, steps).value;
            && (s.phase == Returned ==> forall i :: 0 <= i < |s.tasks| ==> HasSignalled(s.tasks[i]))
            && (s.phase == Draining ==>
                  (IsEnabled(s, Return) <==> forall i :: 0 <= i < |s.tasks| ==> HasSignalled(s.tasks[i])))
  {
    RunKeeps(cap, steps);
    CountAll(After(cap, steps).value.tasks, HasSignalled);
  }

  // ---- Beyond the counter -------------------------------------------------

  /** A returned server with `n` tasks in all has none still running. */
  ghost predicate NeverReturnsEarly(cap: nat, n: nat) {
    forall steps :: After(cap, steps).Some? && After(cap, steps).value.phase == Returned
                    && |After(cap, steps).value.tasks| == n ==>
      forall i :: 0 <= i < n ==> After(cap, steps).value.tasks[i] != Running
  }

  lemma {:induction false} OneMoreStep(cap: nat, steps: seq<Step>, step: Step)
    requires After(cap, steps).Some? && IsEnabled(After(cap, steps).value, step)
    ensures After(cap, steps + [step]) == Some(Take(cap, After(cap, steps).value, step))
  {
    assert (steps + [step])[..|steps|] == steps;
  }

  /** `n` connections one after the other, each over before the next. */
  lemma {:induction false} Rounds(cap: nat, n: nat) returns (steps: seq<Step>)
    ensures After(cap, steps).Some?
    ensures var s := After(cap, steps).value;
            && s.phase == Accepting && s.slots == cap && s.drain == n && |s.tasks| == n
            && s.spawned == if n <= MAX_U32 then n else MAX_U32
    decreases n
  {
    if n == 0 {
      steps := [];
    } else {
      steps := Rounds(cap, n - 1);
      OneMoreStep(cap, steps, Accept);
      steps := steps + [Accept];
      OneMoreStep(cap, steps, Finish(n - 1));
      steps := steps + [Finish(n - 1)];
      OneMoreStep(cap, steps, Drop(n - 1));
      steps := steps + [Drop(n - 1)];
    }
  }

  /** Past the largest counter value, the last connection is forgotten: the server
      returns while it runs. */
  lemma {:induction false} ReturnsTooEarly(cap: nat, n: nat) returns (steps: seq<Step>)
    requires n > MAX_U32
    ensures After(cap, steps).Some?
    ensures var s := After(cap, steps).value;
            s.phase == Returned && |s.tasks| == n && s.tasks[n - 1] == Running
  {
    steps := Rounds(cap, n - 1);
    OneMoreStep(cap, steps, Accept);
    steps := steps + [Accept];
    OneMoreStep(cap, steps, Shutdown);
    steps := steps + [Shutdown];
    OneMoreStep(cap, steps, Return);
    steps := steps + [Return];
  }

  /** The shutdown path waits for every connection exactly when no more than
      2^32 - 1 were spawned. */
  lemma {:induction false} WaitsExactly(cap: nat, n: nat)
    ensures NeverReturnsEarly(cap, n) <==> n <= MAX_U32
  {
    if n <= MAX_U32 {
      forall steps | After(cap, steps).Some? && After(cap, steps).value.phase == Returned
                     && |After(cap, steps).value.tasks| == n
        ensures forall i :: 0 <= i < n ==> After(cap, steps).value.tasks[i] != Running
      {
        ReturnsAfterAll(cap, steps);
      }
    } else {
      var steps := ReturnsTooEarly(cap, n);
    }
  }
}
