/** The queue of Queue.dfy used by any number of threads at once
    (common/bvq_queue.c). The semaphore and the mutex are taken and given back
    one at a time, so a thread can be interrupted between them; every such
    point is a state of its own. */
module QueueThreads {
  import opened Types
  import Counting
  import opened Queue

  /** Where a thread is in its call. */
  datatype Thread<T> =
    | Idle
    | WantsEnqueue(item: T)
    | Enqueuing(item: T)    // owns the mutex
    | Posted(item: T)       // has written the item and posted, not yet counted it
    | EnqueueDone           // about to unlock
    | WantsToken            // waits for the semaphore
    | HasToken              // has passed the semaphore, waits for the mutex
    | Taking                // owns the mutex, has not yet taken the item
    | Took
    | WantsClear
    | Clearing              // owns the mutex, at the head of the loop
    | Freed                 // has freed the oldest item, waits for the semaphore
    | FreedToken            // has passed the semaphore, has not yet uncounted the item

  /** `entered` and `left` log what went into the queue and came out of it. */
  datatype State<T> = State(threads: seq<Thread<T>>, items: seq<T>, sem: nat, owner: Option<nat>,
                            entered: seq<T>, left: seq<T>, freed: seq<T>, dequeuedEmpty: bool)

  datatype Call<T> = CallEnqueue(x: T) | CallDequeue | CallClear

  datatype Action<T> = Begin(i: nat, call: Call<T>) | Go(i: nat) | GiveUp(i: nat)

  datatype Config = Config(length: nat, mode: Mode, free: bool)

  predicate Owns<T>(t: Thread<T>) {
    t.Enqueuing? || t.Posted? || t.EnqueueDone? || t.Taking? || t.Took? || InClear(t)
  }

  predicate InClear<T>(t: Thread<T>) {
    t.Clearing? || t.Freed? || t.FreedToken?
  }

  /** A token taken from the semaphore and not yet cashed in for an item. */
  predicate Holds<T>(t: Thread<T>) {
    t.HasToken? || t.Taking?
  }

  function Holders<T>(threads: seq<Thread<T>>): nat {
    Counting.Times<Thread<T>>(threads, Holds<T>)
  }

  function To<T>(s: State<T>, i: nat, t: Thread<T>): State<T>
    requires i < |s.threads|
  {
    s.(threads := s.threads[i := t])
  }

  function Lock<T>(s: State<T>, i: nat, t: Thread<T>): State<T>
    requires i < |s.threads|
  {
    if s.owner.None? then To(s, i, t).(owner := Some(i)) else s
  }

  function Unlock<T>(s: State<T>, i: nat): State<T>
    requires i < |s.threads|
  {
    To(s, i, Idle).(owner := None)
  }

  function TakeOldest<T>(s: State<T>): State<T>
    requires s.items != []
  {
    s.(items := s.items[1..], left := s.left + s.items[..1])
  }

  /** The next step of thread i; a thread that must wait does nothing. */
  function Proceed<T>(s: State<T>, c: Config, i: nat): State<T>
    requires i < |s.threads| && |s.items| <= c.length && 0 < c.length
  {
    match s.threads[i]
    case Idle => s
    case WantsEnqueue(x) => Lock(s, i, Enqueuing(x))
    case Enqueuing(x) =>
      if |s.items| < c.length then To(s, i, Posted(x)).(sem := s.sem + 1)
      else
        var e := EnqueueItems(s.items, c.length, c.mode, x);
        To(s, i, EnqueueDone).(items := e.items, left := s.left + e.removed,
                               entered := if e.removed == [] then s.entered else s.entered + [x],
                               freed := if c.free then s.freed + (e.removed + e.refused) else s.freed)
    case Posted(x) => To(s, i, EnqueueDone).(items := s.items + [x], entered := s.entered + [x])
    case EnqueueDone => Unlock(s, i)
    case WantsToken => if s.sem > 0 then To(s, i, HasToken).(sem := s.sem - 1) else s
    case HasToken => Lock(s, i, Taking)
    case Taking => if s.items == [] then To(s, i, Took).(dequeuedEmpty := true) else TakeOldest(To(s, i, Took))
    case Took => Unlock(s, i)
    case WantsClear => Lock(s, i, Clearing)
    case Clearing =>
      if c.free && s.items != [] then To(s, i, Freed).(freed := s.freed + s.items[..1]) else Unlock(s, i)
    case Freed => if s.sem > 0 then To(s, i, FreedToken).(sem := s.sem - 1) else s
    case FreedToken => if s.items == [] then s else TakeOldest(To(s, i, Clearing))
  }

  function Step<T>(s: State<T>, c: Config, a: Action<T>): State<T>
    requires |s.items| <= c.length && 0 < c.length
  {
    if a.i >= |s.threads| then s
    else
      match a
      case Begin(i, call) =>
        if !s.threads[i].Idle? then s
        else To(s, i,
          match call case CallEnqueue(x) => WantsEnqueue(x) case CallDequeue => WantsToken case CallClear => WantsClear)
      case Go(i) => Proceed(s, c, i)
      case GiveUp(i) => if s.threads[i].WantsToken? then To(s, i, Idle) else s
  }

  // ---- What every state keeps ----

  predicate Exclusive<T>(s: State<T>) {
    && (forall i :: 0 <= i < |s.threads| && Owns(s.threads[i]) ==> s.owner == Some(i))
    && (s.owner.Some? ==> s.owner.value < |s.threads| && Owns(s.threads[s.owner.value]))
  }

  /** The owner of the mutex, if there is one. */
  function OwnerState<T>(s: State<T>): (t: Thread<T>)
    requires Exclusive(s)
    ensures s.owner.None? <==> t.Idle?
  {
    if s.owner.Some? then s.threads[s.owner.value] else Idle
  }

  /** By how much tokens run ahead of the count while the owner is between its
      semaphore operation and its change of the count. */
  function Ahead<T>(t: Thread<T>): int {
    if t.Posted? then 1 else if t.FreedToken? then -1 else 0
  }

  predicate Inv<T(==)>(s: State<T>, c: Config) {
    && 0 < c.length && |s.items| <= c.length
    && Exclusive(s)
    && s.sem + Holders(s.threads) == |s.items| + Ahead(OwnerState(s))
    && (OwnerState(s).Posted? ==> |s.items| < c.length)
    && (OwnerState(s).Freed? || OwnerState(s).FreedToken? ==> s.items != [] && c.free)
    && s.left + s.items == s.entered
    && !s.dequeuedEmpty
  }

  lemma {:induction false} HoldersUpdate<T>(threads: seq<Thread<T>>, i: nat, t: Thread<T>)
    requires i < |threads|
    ensures Holders(threads[i := t]) ==
            Holders(threads) - (if Holds(threads[i]) then 1 else 0) + if Holds(t) then 1 else 0
  {
    Counting.TimesUpdate<Thread<T>>(threads, i, t, Holds<T>);
  }

  lemma {:induction false} HolderCounts<T>(threads: seq<Thread<T>>, i: nat)
    requires i < |threads| && Holds(threads[i])
    ensures Holders(threads) > 0
  {
    Counting.TimesMember<Thread<T>>(threads, i, Holds<T>);
  }

  /** A thread that waits for the mutex, or gives it back. */
  lemma {:induction false} MutexStepKeeps<T>(s: State<T>, c: Config, i: nat)
    requires Inv(s, c) && i < |s.threads|
    requires var t := s.threads[i];
             t.WantsEnqueue? || t.HasToken? || t.WantsClear? || t.EnqueueDone? || t.Took?
    ensures Inv(Proceed(s, c, i), c)
  {
    var t := s.threads[i];
    HoldersUpdate(s.threads, i, Proceed(s, c, i).threads[i]);
  }

  lemma {:induction false} PostedStepKeeps<T>(s: State<T>, c: Config, i: nat)
    requires Inv(s, c) && i < |s.threads| && s.threads[i].Posted?
    ensures Inv(Proceed(s, c, i), c)
  {
    HoldersUpdate(s.threads, i, EnqueueDone);
    assert s.left + (s.items + [s.threads[i].item]) == s.entered + [s.threads[i].item];
  }

  lemma {:induction false} EnqueueStepKeeps<T>(s: State<T>, c: Config, i: nat)
    requires Inv(s, c) && i < |s.threads| && s.threads[i].Enqueuing?
    ensures Inv(Proceed(s, c, i), c)
  {
    var t := Proceed(s, c, i).threads[i];
    HoldersUpdate(s.threads, i, t);
    if |s.items| == c.length {
      var x := s.threads[i].item;
      var e := EnqueueItems(s.items, c.length, c.mode, x);
      if e.removed == [] {
        assert e.items == s.items && s.left + [] == s.left;
      } else {
        assert e.removed == s.items[..1] && e.items == s.items[1..] + [x];
        assert s.items == s.items[..1] + s.items[1..];
        assert s.left + s.items[..1] + (s.items[1..] + [x]) == s.entered + [x];
      }
    }
  }

  lemma {:induction false} TokenStepKeeps<T>(s: State<T>, c: Config, i: nat)
    requires Inv(s, c) && i < |s.threads| && (s.threads[i].WantsToken? || s.threads[i].Freed?)
    ensures Inv(Proceed(s, c, i), c)
  {
    var t := Proceed(s, c, i).threads[i];
    HoldersUpdate(s.threads, i, t);
  }

  /** A dequeuer that has come to take its item finds one. */
  lemma {:induction false} TakingFindsAnItem<T>(s: State<T>, c: Config, i: nat)
    requires Inv(s, c) && i < |s.threads| && s.threads[i].Taking?
    ensures s.items != []
  {
    HolderCounts(s.threads, i);
  }

  lemma {:induction false} TakeStepKeeps<T>(s: State<T>, c: Config, i: nat)
    requires Inv(s, c) && i < |s.threads| && (s.threads[i].Taking? || s.threads[i].FreedToken?)
    ensures Inv(Proceed(s, c, i), c)
  {
    if s.threads[i].Taking? {
      TakingFindsAnItem(s, c, i);
    }
    var t := Proceed(s, c, i).threads[i];
    HoldersUpdate(s.threads, i, t);
    assert s.left + s.items[..1] + s.items[1..] == s.left + s.items;
  }

  lemma {:induction false} ClearStepKeeps<T>(s: State<T>, c: Config, i: nat)
    requires Inv(s, c) && i < |s.threads| && s.threads[i].Clearing?
    ensures Inv(Proceed(s, c, i), c)
  {
    var t := Proceed(s, c, i).threads[i];
    HoldersUpdate(s.threads, i, t);
  }

  lemma {:induction false} OutsideStepKeeps<T>(s: State<T>, c: Config, i: nat, t: Thread<T>)
    requires Inv(s, c) && i < |s.threads| && !Owns(s.threads[i]) && !Holds(s.threads[i]) && !Owns(t) && !Holds(t)
    ensures Inv(To(s, i, t), c)
  {
    HoldersUpdate(s.threads, i, t);
  }

  lemma {:induction false} StepKeeps<T>(s: State<T>, c: Config, a: Action<T>)
    requires Inv(s, c)
    ensures Inv(Step(s, c, a), c)
  {
    if a.i < |s.threads| {
      var t := s.threads[a.i];
      if !a.Go? {
        if t.Idle? || t.WantsToken? {
          OutsideStepKeeps(s, c, a.i, Step(s, c, a).threads[a.i]);
        }
      } else if t.Enqueuing? {
        EnqueueStepKeeps(s, c, a.i);
      } else if t.Posted? {
        PostedStepKeeps(s, c, a.i);
      } else if t.WantsToken? || t.Freed? {
        TokenStepKeeps(s, c, a.i);
      } else if t.Taking? || t.FreedToken? {
        TakeStepKeeps(s, c, a.i);
      } else if t.Clearing? {
        ClearStepKeeps(s, c, a.i);
      } else if !t.Idle? {
        MutexStepKeeps(s, c, a.i);
      }
    }
  }

  // ---- Whole runs ----

  function Run<T>(s: State<T>, c: Config, actions: seq<Action<T>>): State<T>
    requires Inv(s, c)
    decreases |actions|
  {
    if actions == [] then s
    else
      StepKeeps(s, c, actions[0]);
      Run(Step(s, c, actions[0]), c, actions[1..])
  }

  function Start<T>(n: nat): State<T> {
    State(seq(n, _ => Idle), [], 0, None, [], [], [], false)
  }

  lemma {:induction false} StartKeeps<T>(n: nat, c: Config)
    requires 0 < c.length
    ensures Inv(Start<T>(n), c)
  {
    NoHolders<T>(n);
  }

  lemma {:induction false} NoHolders<T>(n: nat)
    ensures Holders(seq(n, _ => Thread<T>.Idle)) == 0
  {
    if n > 0 {
      assert seq(n, _ => Thread<T>.Idle)[..n - 1] == seq(n - 1, _ => Thread<T>.Idle);
      NoHolders<T>(n - 1);
    }
  }

  /** In every run of any number of threads: whenever the mutex is free, the
      count is the semaphore's value plus the tokens not yet cashed in; no
      dequeue meets an empty queue; and items leave in the order they entered. */
  lemma {:induction false} RunKeeps<T>(s: State<T>, c: Config, actions: seq<Action<T>>)
    requires Inv(s, c)
    ensures var e := Run(s, c, actions);
            && Inv(e, c) && !e.dequeuedEmpty && e.left + e.items == e.entered
            && (e.owner.None? ==> |e.items| == e.sem + Holders(e.threads))
    decreases |actions|
  {
    if actions != [] {
      StepKeeps(s, c, actions[0]);
      RunKeeps(Step(s, c, actions[0]), c, actions[1..]);
    }
  }

  // ---- Clearing ----

  predicate IsClearing<T>(s: State<T>, k: nat) {
    k < |s.threads| && s.owner == Some(k) && InClear(s.threads[k])
  }

  /** While thread k clears, the other threads can only begin calls, give up,
      or take tokens. */
  lemma {:induction false} OthersDuringClear<T>(s: State<T>, c: Config, k: nat, a: Action<T>)
    requires Inv(s, c) && IsClearing(s, k) && a != Go(k)
    ensures var n := Step(s, c, a);
            && IsClearing(n, k) && n.threads[k] == s.threads[k]
            && n.items == s.items && n.freed == s.freed && n.left == s.left
            && n.sem + Holders(n.threads) == s.sem + Holders(s.threads) && Holders(s.threads) <= Holders(n.threads)
  {
    if a.i < |s.threads| {
      assert a.i == k || !Owns(s.threads[a.i]);
      HoldersUpdate(s.threads, a.i, Step(s, c, a).threads[a.i]);
    }
  }

  /** A dequeuer holds a token while thread k clears. */
  predicate Stuck<T>(s: State<T>, k: nat) {
    IsClearing(s, k) && Holders(s.threads) > 0
  }

  lemma {:induction false} OwnStepKeepsHolders<T>(s: State<T>, c: Config, k: nat)
    requires Inv(s, c) && IsClearing(s, k)
    ensures Holders(Proceed(s, c, k).threads) == Holders(s.threads)
  {
    HoldersUpdate(s.threads, k, Proceed(s, c, k).threads[k]);
  }

  lemma {:induction false} StuckStays<T>(s: State<T>, c: Config, k: nat, a: Action<T>)
    requires Inv(s, c) && Stuck(s, k) && c.free
    ensures Stuck(Step(s, c, a), k)
  {
    if a == Go(k) {
      OwnStepKeepsHolders(s, c, k);
    } else {
      OthersDuringClear(s, c, k, a);
    }
  }

  /** Clear waits for the semaphore while it owns the mutex: once a dequeuer
      holds a token, clear never finishes, whatever happens from then on. */
  lemma {:induction false} ClearNeverFinishes<T>(s: State<T>, c: Config, k: nat, actions: seq<Action<T>>)
    requires Inv(s, c) && Stuck(s, k) && c.free
    ensures IsClearing(Run(s, c, actions), k)
    decreases |actions|
  {
    if actions != [] {
      StepKeeps(s, c, actions[0]);
      StuckStays(s, c, k, actions[0]);
      ClearNeverFinishes(Step(s, c, actions[0]), c, k, actions[1..]);
    }
  }

  /** The actions lead from one state to another. */
  predicate LeadsTo<T(==)>(s: State<T>, c: Config, actions: seq<Action<T>>, e: State<T>) {
    Inv(s, c) && Run(s, c, actions) == e
  }

  lemma {:induction false} OneMore<T>(s: State<T>, c: Config, actions: seq<Action<T>>, m: State<T>, a: Action<T>,
                                      e: State<T>)
    requires LeadsTo(s, c, actions, m)
    ensures Inv(m, c)
    ensures Step(m, c, a) == e ==> LeadsTo(s, c, actions + [a], e)
    decreases |actions|
  {
    if actions == [] {
      assert [] + [a] == [a] && [a][1..] == [];
      StepKeeps(m, c, a);
      assert Run(Step(m, c, a), c, []) == Step(m, c, a);
    } else {
      StepKeeps(s, c, actions[0]);
      OneMore(Step(s, c, actions[0]), c, actions[1..], m, a, e);
      assert (actions + [a])[1..] == actions[1..] + [a];
    }
  }

  function Trio<T>(a: Thread<T>, b: Thread<T>, d: Thread<T>, items: seq<T>, sem: nat, owner: Option<nat>): State<T> {
    State([a, b, d], items, sem, owner, items, [], [], false)
  }

  /** A step of one of three threads. */
  lemma {:induction false} OneStep<T>(c: Config, actions: seq<Action<T>>, m: State<T>, a: Action<T>, e: State<T>)
    returns (more: seq<Action<T>>)
    requires LeadsTo(Start(3), c, actions, m)
    ensures Inv(m, c) && (Step(m, c, a) == e ==> LeadsTo(Start(3), c, more, e))
  {
    OneMore(Start(3), c, actions, m, a, e);
    more := actions + [a];
  }

  /** Thread 0 begins to enqueue an item. */
  lemma {:induction false} EnqueueBegins<T>(c: Config, x: T) returns (actions: seq<Action<T>>)
    requires 0 < c.length
    ensures LeadsTo(Start(3), c, actions, Trio(Enqueuing(x), Idle, Idle, [], 0, Some(0)))
  {
    StartKeeps<T>(3, c);
    assert Start<T>(3) == Trio(Idle, Idle, Idle, [], 0, None);
    var m := Trio(WantsEnqueue(x), Idle, Idle, [], 0, None);
    actions := OneStep(c, [], Start(3), Begin(0, CallEnqueue(x)), m);
    actions := OneStep(c, actions, m, Go(0), Trio(Enqueuing(x), Idle, Idle, [], 0, Some(0)));
  }

  lemma {:induction false} EnqueueWrites<T>(c: Config, x: T) returns (actions: seq<Action<T>>)
    requires 0 < c.length
    ensures LeadsTo(Start(3), c, actions, Trio(EnqueueDone, Idle, Idle, [x], 1, Some(0)))
  {
    actions := EnqueueBegins(c, x);
    var m := Trio(Posted(x), Idle, Idle, [], 1, Some(0));
    actions := OneStep(c, actions, Trio(Enqueuing(x), Idle, Idle, [], 0, Some(0)), Go(0), m);
    actions := OneStep(c, actions, m, Go(0), Trio(EnqueueDone, Idle, Idle, [x], 1, Some(0)));
  }

  /** Thread 0 has enqueued it, and thread 1 begins to dequeue. */
  lemma {:induction false} DequeueBegins<T>(c: Config, x: T) returns (actions: seq<Action<T>>)
    requires 0 < c.length
    ensures LeadsTo(Start(3), c, actions, Trio(Idle, WantsToken, Idle, [x], 1, None))
  {
    actions := EnqueueWrites(c, x);
    var m := Trio(Idle, Idle, Idle, [x], 1, None);
    actions := OneStep(c, actions, Trio(EnqueueDone, Idle, Idle, [x], 1, Some(0)), Go(0), m);
    actions := OneStep(c, actions, m, Begin(1, CallDequeue), Trio(Idle, WantsToken, Idle, [x], 1, None));
  }

  /** Thread 1 has passed the semaphore, and thread 2 begins to clear. */
  lemma {:induction false} ClearBegins<T>(c: Config, x: T) returns (actions: seq<Action<T>>)
    requires 0 < c.length
    ensures LeadsTo(Start(3), c, actions, Trio(Idle, HasToken, WantsClear, [x], 0, None))
  {
    actions := DequeueBegins(c, x);
    var m := Trio(Idle, HasToken, Idle, [x], 0, None);
    actions := OneStep(c, actions, Trio(Idle, WantsToken, Idle, [x], 1, None), Go(1), m);
    actions := OneStep(c, actions, m, Begin(2, CallClear), Trio(Idle, HasToken, WantsClear, [x], 0, None));
  }

  /** It does happen: a dequeuer passes the semaphore just before another
      thread starts to clear. */
  lemma {:induction false} ClearGetsStuck<T>(c: Config, x: T)
    requires 0 < c.length
    ensures Inv(Start<T>(3), c) && exists actions: seq<Action<T>> :: Stuck(Run(Start(3), c, actions), 2)
  {
    var actions := ClearBegins(c, x);
    var e := Trio(Idle, HasToken, Clearing, [x], 0, Some(2));
    actions := OneStep(c, actions, Trio(Idle, HasToken, WantsClear, [x], 0, None), Go(2), e);
    HolderCounts(e.threads, 1);
    assert Stuck(Run(Start(3), c, actions), 2);
  }

  /** As long as thread k clears, no dequeuer holds a token. */
  predicate Quiet<T>(s: State<T>, c: Config, k: nat, actions: seq<Action<T>>)
    requires Inv(s, c)
    decreases |actions|
  {
    IsClearing(s, k) ==>
      Holders(s.threads) == 0 && (actions != [] ==> QuietAfter(s, c, k, actions))
  }

  predicate QuietAfter<T>(s: State<T>, c: Config, k: nat, actions: seq<Action<T>>)
    requires Inv(s, c) && actions != []
    decreases |actions|, 0
  {
    StepKeeps(s, c, actions[0]);
    Quiet(Step(s, c, actions[0]), c, k, actions[1..])
  }

  /** How many steps thread k is given. */
  function Given<T>(actions: seq<Action<T>>, k: nat): nat
    decreases |actions|
  {
    if actions == [] then 0 else (if actions[0] == Go(k) then 1 else 0) + Given(actions[1..], k)
  }

  /** How many steps clear still needs. */
  function Needed<T>(s: State<T>, k: nat): nat
    requires IsClearing(s, k)
  {
    var n := 3 * |s.items|;
    if s.threads[k].Clearing? then n + 1 else if s.threads[k].Freed? then n else if n > 0 then n - 1 else 0
  }

  /** The items clear has still to free. */
  function ToFree<T>(s: State<T>, k: nat): seq<T>
    requires IsClearing(s, k)
  {
    if s.threads[k].Clearing? || s.items == [] then s.items else s.items[1..]
  }

  /** With no token out, every step given to clear brings it one nearer its end. */
  lemma {:induction false} ClearProgresses<T>(s: State<T>, c: Config, k: nat)
    requires Inv(s, c) && IsClearing(s, k) && c.free && Holders(s.threads) == 0
    ensures var n := Proceed(s, c, k);
            if Needed(s, k) == 1 then
              n.threads[k].Idle? && n.owner.None? && n.items == [] && n.sem == 0 && n.freed == s.freed + ToFree(s, k)
            else
              IsClearing(n, k) && Needed(n, k) == Needed(s, k) - 1 && n.freed + ToFree(n, k) == s.freed + ToFree(s, k)
  {
    assert OwnerState(s) == s.threads[k];
    if s.items != [] {
      assert s.items == s.items[..1] + s.items[1..];
    }
  }

  /** Finished: nothing queued, no token left, and everything that was to be
      freed has been, oldest first. */
  predicate Finished<T(==)>(s: State<T>, k: nat, freed: seq<T>) {
    k < |s.threads| && s.threads[k].Idle? && s.owner.None? && s.items == [] && s.sem == 0 && s.freed == freed
  }

  /** Some way into the run clear has finished. */
  predicate FinishesIn<T(==)>(s: State<T>, c: Config, k: nat, actions: seq<Action<T>>, freed: seq<T>)
    requires Inv(s, c)
  {
    exists at: nat :: at <= |actions| && Finished(Run(s, c, actions[..at]), k, freed)
  }

  lemma {:induction false} OneMoreStep<T>(s: State<T>, c: Config, actions: seq<Action<T>>, at: nat)
    requires Inv(s, c) && actions != [] && at <= |actions| - 1
    ensures Inv(Step(s, c, actions[0]), c)
    ensures Run(s, c, actions[..at + 1]) == Run(Step(s, c, actions[0]), c, actions[1..][..at])
  {
    StepKeeps(s, c, actions[0]);
    assert actions[..at + 1][1..] == actions[1..][..at];
  }

  /** If no dequeuer holds a token while clear runs, then once clear has been
      given the steps it needs it has finished. */
  lemma {:induction false} ClearFinishes<T>(s: State<T>, c: Config, k: nat, actions: seq<Action<T>>)
    requires Inv(s, c) && IsClearing(s, k) && c.free
    requires Quiet(s, c, k, actions) && Given(actions, k) >= Needed(s, k)
    ensures FinishesIn(s, c, k, actions, s.freed + ToFree(s, k))
    decreases |actions|
  {
    var a := actions[0];
    var n := Step(s, c, a);
    StepKeeps(s, c, a);
    if a == Go(k) {
      ClearProgresses(s, c, k);
    } else {
      OthersDuringClear(s, c, k, a);
    }
    if IsClearing(n, k) {
      ClearFinishes(n, c, k, actions[1..]);
      var at: nat :| at <= |actions| - 1 && Finished(Run(n, c, actions[1..][..at]), k, s.freed + ToFree(s, k));
      OneMoreStep(s, c, actions, at);
    } else {
      OneMoreStep(s, c, actions, 0);
      assert Run(n, c, actions[1..][..0]) == n;
      assert Finished(Run(s, c, actions[..1]), k, s.freed + ToFree(s, k));
    }
  }

  lemma {:induction false} FinishingIsQuiet<T>(s: State<T>, c: Config, k: nat, actions: seq<Action<T>>, at: nat)
    requires Inv(s, c) && IsClearing(s, k) && c.free
    requires at <= |actions| && !IsClearing(Run(s, c, actions[..at]), k)
    ensures Quiet(s, c, k, actions)
    decreases |actions|
  {
    if Holders(s.threads) > 0 {
      ClearNeverFinishes(s, c, k, actions[..at]);
    }
    if at > 0 {
      var n := Step(s, c, actions[0]);
      OneMoreStep(s, c, actions, at - 1);
      if IsClearing(n, k) {
        FinishingIsQuiet(n, c, k, actions[1..], at - 1);
      }
    }
  }

  /** Clear with a callback finishes, in every run that gives it the steps it
      needs, exactly when no dequeuer holds a token while it runs; and then
      everything queued has been freed, oldest first, and nothing is queued and
      no token is left. */
  lemma {:induction false} ClearFinishesIffQuiet<T>(s: State<T>, c: Config, k: nat, actions: seq<Action<T>>)
    requires Inv(s, c) && IsClearing(s, k) && c.free && Given(actions, k) >= Needed(s, k)
    ensures Quiet(s, c, k, actions) <==> FinishesIn(s, c, k, actions, s.freed + ToFree(s, k))
    ensures Quiet(s, c, k, actions) <==> exists at: nat :: at <= |actions| && !IsClearing(Run(s, c, actions[..at]), k)
  {
    if Quiet(s, c, k, actions) {
      ClearFinishes(s, c, k, actions);
      var at: nat :| at <= |actions| && Finished(Run(s, c, actions[..at]), k, s.freed + ToFree(s, k));
      assert !IsClearing(Run(s, c, actions[..at]), k);
    } else {
      forall at: nat | at <= |actions| ensures IsClearing(Run(s, c, actions[..at]), k) {
        if !IsClearing(Run(s, c, actions[..at]), k) {
          FinishingIsQuiet(s, c, k, actions, at);
        }
      }
      assert forall at: nat :: at <= |actions| ==> !Finished(Run(s, c, actions[..at]), k, s.freed + ToFree(s, k));
    }
  }
}
