/** The cancellation token as interleaved atomic steps of any number of threads (cancellation.rs). */
module Cancellation {
  import opened Wrappers

  /** Where a thread stands in `cancel`, or in `subscribe` and the lifetime of its subscription. */
  datatype Pc =
    | CancelSwap                        // about to swap the flag
    | CancelLock                        // won the swap, waiting for the mutex
    | CancelCollect                     // holds the mutex
    | CancelUnlock(collected: seq<nat>) // holds the mutex; the list is taken
    | CancelWake(waking: seq<nat>)      // mutex released; waking the taken registrations
    | CancelDone
    | SubscribeLock                     // registration created, waiting for the mutex
    | SubscribePush                     // holds the mutex
    | SubscribeUnlock                   // holds the mutex; registration listed
    | SubscribeCheck                    // about to read the flag
    | SubscribeWake                     // saw the flag; about to wake its own registration
    | Subscribed                        // returned; the caller keeps the subscription
    | Dropped                           // the caller dropped the subscription

  datatype Operation = Cancel | Subscribe

  /** A registration is named after its subscribing thread. `winner` remembers who swapped first. */
  datatype State = State(
    flag: bool,
    holder: Option<nat>,
    entries: seq<nat>,
    threads: map<nat, Pc>,
    winner: Option<nat>,
    cancelWakes: multiset<nat>,
    selfWakes: multiset<nat>)

  datatype Action = Spawn(thread: nat, operation: Operation) | Run(thread: nat)

  function Initial(): State {
    State(false, None, [], map[], None, multiset{}, multiset{})
  }

  /** Registrations upgraded to strong references by the winning canceller and not yet woken. */
  function Pending(s: State): seq<nat> {
    if s.winner.Some? && s.winner.value in s.threads then
      match s.threads[s.winner.value]
      case CancelUnlock(list) => list
      case CancelWake(list) => list
      case _ => []
    else []
  }

  predicate KeepsPc(pc: Pc) {
    pc.SubscribeLock? || pc.SubscribePush? || pc.SubscribeUnlock? || pc.SubscribeCheck? || pc.SubscribeWake? || pc.Subscribed?
  }

  /** The subscriber still owns its registration: inside `subscribe`, or keeping the subscription. */
  predicate Keeps(s: State, r: nat) {
    r in s.threads && KeepsPc(s.threads[r])
  }

  /** A weak registration can be upgraded as long as somebody holds it strongly. */
  predicate Alive(s: State, r: nat) {
    Keeps(s, r) || r in Pending(s)
  }

  function FilterAlive(s: State, list: seq<nat>): seq<nat> {
    if list == [] then []
    else (if Alive(s, list[0]) then [list[0]] else []) + FilterAlive(s, list[1..])
  }

  function Goto(s: State, t: nat, pc: Pc): State {
    s.(threads := s.threads[t := pc])
  }

  /** One atomic step of a thread; a thread waiting for a held mutex, or finished, does not move. */
  function Step(s: State, t: nat): State
    requires t in s.threads
  {
    match s.threads[t]
    case CancelSwap =>
      if s.flag then Goto(s, t, CancelDone) else Goto(s.(flag := true, winner := Some(t)), t, CancelLock)
    case CancelLock => if s.holder.Some? then s else Goto(s.(holder := Some(t)), t, CancelCollect)
    case CancelCollect => Goto(s.(entries := []), t, CancelUnlock(FilterAlive(s, s.entries)))
    case CancelUnlock(list) => Goto(s.(holder := None), t, CancelWake(list))
    case CancelWake(list) =>
      if list == [] then Goto(s, t, CancelDone)
      else Goto(s.(cancelWakes := s.cancelWakes + multiset{list[0]}), t, CancelWake(list[1..]))
    case SubscribeLock => if s.holder.Some? then s else Goto(s.(holder := Some(t)), t, SubscribePush)
    case SubscribePush => Goto(s.(entries := FilterAlive(s, s.entries) + [t]), t, SubscribeUnlock)
    case SubscribeUnlock => Goto(s.(holder := None), t, SubscribeCheck)
    case SubscribeCheck => if s.flag then Goto(s, t, SubscribeWake) else Goto(s, t, Subscribed)
    case SubscribeWake => Goto(s.(selfWakes := s.selfWakes + multiset{t}), t, Subscribed)
    case Subscribed => Goto(s, t, Dropped)
    case CancelDone => s
    case Dropped => s
  }

  function Act(s: State, a: Action): State {
    match a
    case Spawn(t, op) => if t in s.threads then s else Goto(s, t, if op.Cancel? then CancelSwap else SubscribeLock)
    case Run(t) => if t in s.threads then Step(s, t) else s
  }

  /** The state after a schedule of spawns and steps. */
  function After(schedule: seq<Action>): State {
    if schedule == [] then Initial() else Act(After(schedule[..|schedule| - 1]), schedule[|schedule| - 1])
  }

  function Wakes(s: State, r: nat): nat {
    s.cancelWakes[r] + s.selfWakes[r]
  }

  // -------------------------------------------------------------- invariants

  predicate Winning(pc: Pc) {
    pc.CancelLock? || pc.CancelCollect? || pc.CancelUnlock? || pc.CancelWake?
  }

  predicate Locking(pc: Pc) {
    pc.CancelCollect? || pc.CancelUnlock? || pc.SubscribePush? || pc.SubscribeUnlock?
  }

  /** The canceller has taken the list. */
  predicate Collected(s: State) {
    && s.winner.Some? && s.winner.value in s.threads
    && var pc := s.threads[s.winner.value]; pc.CancelUnlock? || pc.CancelWake? || pc.CancelDone?
  }

  predicate ListedPc(pc: Pc) {
    pc.SubscribeUnlock? || pc.SubscribeCheck? || pc.SubscribeWake? || pc.Subscribed? || pc.Dropped?
  }

  /** The registration has been listed. */
  predicate Listed(s: State, r: nat) {
    r in s.threads && ListedPc(s.threads[r])
  }

  ghost predicate ThreadOk(s: State, t: nat)
    requires t in s.threads
  {
    && (Winning(s.threads[t]) ==> s.winner == Some(t))
    && (Locking(s.threads[t]) ==> s.holder == Some(t))
    && (s.threads[t].SubscribeWake? || s.threads[t].CancelDone? ==> s.flag)
  }

  /** One winner, and only once the flag is set; the mutex is held exactly by the thread inside it. */
  ghost predicate Control(s: State) {
    && (s.flag <==> s.winner.Some?)
    && (s.winner.Some? ==> s.winner.value in s.threads
                           && (Winning(s.threads[s.winner.value]) || s.threads[s.winner.value].CancelDone?))
    && (s.holder.Some? ==> s.holder.value in s.threads && Locking(s.threads[s.holder.value]))
    && (forall t {:trigger ThreadOk(s, t)} | t in s.threads :: ThreadOk(s, t))
  }

  ghost predicate NoRepeats(list: seq<nat>) {
    forall i, j | 0 <= i < j < |list| :: list[i] != list[j]
  }

  /** Each registration is in at most one place: listed, pending, or already woken by the canceller. */
  ghost predicate Placed(s: State, r: nat) {
    && (r in s.entries ==> Listed(s, r) && r !in Pending(s) && s.cancelWakes[r] == 0)
    && (r in Pending(s) ==> Listed(s, r) && s.cancelWakes[r] == 0)
    && s.cancelWakes[r] <= 1 && s.selfWakes[r] <= 1
    && (s.cancelWakes[r] == 1 ==> Listed(s, r) && Collected(s))
    && (s.selfWakes[r] == 1 ==> s.flag && r in s.threads && (s.threads[r].Subscribed? || s.threads[r].Dropped?))
  }

  /** A kept, listed registration is never forgotten. */
  ghost predicate Remembered(s: State, r: nat) {
    Listed(s, r) && Keeps(s, r) ==> r in s.entries || r in Pending(s) || s.cancelWakes[r] == 1
  }

  /** A registration listed after the canceller took the list notices the flag itself. */
  ghost predicate Noticed(s: State, r: nat) {
    Collected(s) && r in s.entries && Keeps(s, r) && s.threads[r].Subscribed? ==> s.selfWakes[r] == 1
  }

  ghost predicate Tracked(s: State, r: nat) {
    Placed(s, r) && Remembered(s, r) && Noticed(s, r)
  }

  ghost predicate Inv(s: State) {
    && Control(s)
    && NoRepeats(s.entries) && NoRepeats(Pending(s))
    && (forall r: nat {:trigger Tracked(s, r)} :: Tracked(s, r))
  }

  lemma {:induction false} FilterAliveMembers(s: State, list: seq<nat>)
    ensures forall r :: r in FilterAlive(s, list) <==> r in list && Alive(s, r)
  {
    if list != [] {
      FilterAliveMembers(s, list[1..]);
      assert list == [list[0]] + list[1..];
    }
  }

  lemma {:induction false} FilterAliveNoRepeats(s: State, list: seq<nat>)
    requires NoRepeats(list)
    ensures NoRepeats(FilterAlive(s, list))
  {
    if list != [] {
      FilterAliveNoRepeats(s, list[1..]);
      FilterAliveMembers(s, list[1..]);
      assert list[0] !in list[1..];
    }
  }

  lemma ThreadOkKept(s: State, t: nat, u: nat)
    requires Control(s) && t in s.threads && u in s.threads
    ensures ThreadOk(Step(s, t), u)
  {
    assert ThreadOk(s, t) && ThreadOk(s, u);
  }

  lemma WinnerKept(s: State, t: nat)
    requires Control(s) && t in s.threads
    ensures var s' := Step(s, t);
            && (s'.flag <==> s'.winner.Some?) && (s.winner.Some? ==> s'.winner == s.winner)
            && (s'.winner.Some? ==>
                  && s'.winner.value in s'.threads
                  && (Winning(s'.threads[s'.winner.value]) || s'.threads[s'.winner.value].CancelDone?))
  {
    if s.winner.Some? {
      var s' := Step(s, t);
      assert s.winner.value != t ==> s'.threads[s.winner.value] == s.threads[s.winner.value];
    }
  }

  lemma HolderKept(s: State, t: nat)
    requires Control(s) && t in s.threads
    ensures var s' := Step(s, t); s'.holder.Some? ==> s'.holder.value in s'.threads && Locking(s'.threads[s'.holder.value])
  {
    assert ThreadOk(s, t);
    if s.holder.Some? {
      var s' := Step(s, t);
      assert s.holder.value != t ==> s'.threads[s.holder.value] == s.threads[s.holder.value];
    }
  }

  lemma ControlKept(s: State, t: nat)
    requires Control(s) && t in s.threads
    ensures Control(Step(s, t))
  {
    var s' := Step(s, t);
    WinnerKept(s, t);
    HolderKept(s, t);
    forall u | u in s'.threads ensures ThreadOk(s', u) {
      ThreadOkKept(s, t, u);
    }
  }

  /** Steps that move no registration between places. */
  lemma QuietKept(s: State, t: nat, s': State, r: nat)
    requires Inv(s) && t in s.threads && t in s'.threads && s'.threads == s.threads[t := s'.threads[t]]
    requires s'.entries == s.entries && s'.cancelWakes == s.cancelWakes && s'.selfWakes == s.selfWakes
    requires Pending(s') == Pending(s) && Collected(s') == Collected(s) && (s.flag ==> s'.flag)
    requires KeepsPc(s'.threads[t]) == KeepsPc(s.threads[t]) && ListedPc(s'.threads[t]) == ListedPc(s.threads[t])
    requires !s.threads[t].Subscribed? && !s.threads[t].Dropped? && (s'.threads[t].Subscribed? ==> !Collected(s))
    ensures Tracked(s', r)
  {
    assert Tracked(s, r);
  }

  lemma DropKept(s: State, t: nat, r: nat)
    requires Inv(s) && t in s.threads && s.threads[t].Subscribed?
    ensures Pending(Step(s, t)) == Pending(s) && Tracked(Step(s, t), r)
  {
    assert ThreadOk(s, t);
    assert Tracked(s, r);
  }

  lemma CollectKept(s: State, t: nat, r: nat)
    requires Inv(s) && t in s.threads && s.threads[t].CancelCollect?
    ensures Tracked(Step(s, t), r)
  {
    assert ThreadOk(s, t);
    assert Tracked(s, r);
    FilterAliveMembers(s, s.entries);
  }

  lemma WakeKept(s: State, t: nat, r: nat)
    requires Inv(s) && t in s.threads && s.threads[t].CancelWake? && s.threads[t].waking != []
    ensures Tracked(Step(s, t), r)
  {
    assert ThreadOk(s, t);
    assert Tracked(s, r);
    var list := s.threads[t].waking;
    assert list == [list[0]] + list[1..];
    assert list[0] !in list[1..];
  }

  lemma PushKept(s: State, t: nat, r: nat)
    requires Inv(s) && t in s.threads && s.threads[t].SubscribePush?
    ensures Pending(Step(s, t)) == Pending(s) && Tracked(Step(s, t), r)
  {
    assert ThreadOk(s, t);
    assert Tracked(s, r) && Tracked(s, t);
    FilterAliveMembers(s, s.entries);
  }

  lemma SelfWakeKept(s: State, t: nat, r: nat)
    requires Inv(s) && t in s.threads && s.threads[t].SubscribeWake?
    ensures Pending(Step(s, t)) == Pending(s) && Tracked(Step(s, t), r)
  {
    assert ThreadOk(s, t);
    assert Tracked(s, r);
  }

  lemma TrackedKept(s: State, t: nat, r: nat)
    requires Inv(s) && t in s.threads
    ensures Tracked(Step(s, t), r)
  {
    var s' := Step(s, t);
    assert ThreadOk(s, t) && Tracked(s, r);
    match s.threads[t]
    case CancelCollect => CollectKept(s, t, r);
    case CancelWake(list) =>
      if list != [] {
        WakeKept(s, t, r);
      } else {
        QuietKept(s, t, s', r);
      }
    case SubscribePush => PushKept(s, t, r);
    case SubscribeWake => SelfWakeKept(s, t, r);
    case Subscribed => DropKept(s, t, r);
    case CancelDone =>
    case Dropped =>
    case CancelSwap => QuietKept(s, t, s', r);
    case CancelLock => QuietKept(s, t, s', r);
    case CancelUnlock(_) => QuietKept(s, t, s', r);
    case SubscribeLock => QuietKept(s, t, s', r);
    case SubscribeUnlock => QuietKept(s, t, s', r);
    case SubscribeCheck => QuietKept(s, t, s', r);
  }

  lemma EntriesKept(s: State, t: nat)
    requires Inv(s) && t in s.threads
    ensures NoRepeats(Step(s, t).entries)
  {
    if s.threads[t].SubscribePush? {
      FilterAliveNoRepeats(s, s.entries);
      FilterAliveMembers(s, s.entries);
      assert Tracked(s, t);
    }
  }

  lemma PendingKept(s: State, t: nat)
    requires Inv(s) && t in s.threads
    ensures NoRepeats(Pending(Step(s, t)))
  {
    assert ThreadOk(s, t);
    if s.threads[t].CancelCollect? {
      FilterAliveNoRepeats(s, s.entries);
    }
  }

  lemma StepKept(s: State, t: nat)
    requires Inv(s) && t in s.threads
    ensures Inv(Step(s, t))
  {
    ControlKept(s, t);
    EntriesKept(s, t);
    PendingKept(s, t);
    forall r: nat ensures Tracked(Step(s, t), r) {
      TrackedKept(s, t, r);
    }
  }

  lemma SpawnKept(s: State, t: nat, op: Operation)
    requires Inv(s)
    ensures Inv(Act(s, Spawn(t, op)))
  {
    var s' := Act(s, Spawn(t, op));
    forall u | u in s'.threads ensures ThreadOk(s', u) {
      assert u in s.threads ==> ThreadOk(s, u);
    }
    forall r: nat ensures Tracked(s', r) {
      assert Tracked(s, r);
    }
  }

  lemma {:induction false} Invariant(schedule: seq<Action>)
    ensures Inv(After(schedule))
  {
    if schedule == [] {
      forall r: nat ensures Tracked(Initial(), r) {
      }
    } else {
      var s, a := After(schedule[..|schedule| - 1]), schedule[|schedule| - 1];
      Invariant(schedule[..|schedule| - 1]);
      if a.Spawn? {
        SpawnKept(s, a.thread, a.operation);
      } else if a.thread in s.threads {
        StepKept(s, a.thread);
      }
    }
  }

  // ---------------------------------------------------------------- theorems

  /** The first canceller has returned. */
  predicate CancelReturned(s: State) {
    s.winner.Some? && s.winner.value in s.threads && s.threads[s.winner.value].CancelDone?
  }

  /**
   * No cancellation is lost: in every interleaving, once the first canceller and the subscriber have
   * both returned, a kept registration has been woken at least once.
   */
  lemma NoLostWake(schedule: seq<Action>, r: nat)
    ensures var s := After(schedule);
            CancelReturned(s) && r in s.threads && s.threads[r].Subscribed? ==> 1 <= Wakes(s, r)
  {
    Invariant(schedule);
    assert Tracked(After(schedule), r);
  }

  /** No registration is woken more than twice, and none before the flag is set. */
  lemma BoundedWakes(schedule: seq<Action>, r: nat)
    ensures var s := After(schedule); Wakes(s, r) <= 2 && (0 < Wakes(s, r) ==> s.flag)
  {
    Invariant(schedule);
    assert Tracked(After(schedule), r);
  }

  /** The step of a thread that wakes anybody happens while that thread does not hold the mutex. */
  lemma WakesOutsideLock(schedule: seq<Action>, t: nat, r: nat)
    ensures var s := After(schedule);
            t in s.threads && Wakes(Step(s, t), r) != Wakes(s, r) ==> s.holder != Some(t) && s.flag
  {
    Invariant(schedule);
    var s := After(schedule);
    if t in s.threads {
      assert ThreadOk(s, t);
    }
  }

  /** At most one thread is ever inside the critical section, and it is the recorded holder. */
  lemma MutualExclusion(schedule: seq<Action>, t: nat, u: nat)
    ensures var s := After(schedule);
            t in s.threads && u in s.threads && Locking(s.threads[t]) && Locking(s.threads[u]) ==> t == u && s.holder == Some(t)
  {
    Invariant(schedule);
    var s := After(schedule);
    if t in s.threads && u in s.threads {
      assert ThreadOk(s, t) && ThreadOk(s, u);
    }
  }

  /** The registration was dropped and no canceller holds it: it is dead. */
  predicate Dead(s: State, r: nat) {
    r in s.threads && s.threads[r].Dropped? && r !in Pending(s)
  }

  lemma AfterOne(schedule: seq<Action>, a: Action)
    ensures After(schedule + [a]) == Act(After(schedule), a)
  {
  }

  /** Only the winner's own steps change what is pending, and only taking the list adds to it. */
  lemma PendingShrinks(s: State, t: nat, r: nat)
    requires Control(s) && t in s.threads && r !in Pending(s) && !Keeps(s, r)
    ensures r !in Pending(Step(s, t))
  {
    assert ThreadOk(s, t);
    FilterAliveMembers(s, s.entries);
  }

  lemma DeadStep(s: State, a: Action, r: nat)
    requires Inv(s) && Dead(s, r)
    ensures Dead(Act(s, a), r) && Wakes(Act(s, a), r) == Wakes(s, r)
  {
    if a.Run? && a.thread in s.threads {
      assert ThreadOk(s, a.thread);
      PendingShrinks(s, a.thread, r);
    }
  }

  /** Retired registrations are never woken again, whatever happens later. */
  lemma {:induction false} DeadStaysSilent(schedule: seq<Action>, later: seq<Action>, r: nat)
    requires Dead(After(schedule), r)
    ensures Silent(After(schedule), After(schedule + later), r)
    decreases |later|
  {
    if later == [] {
      assert schedule + later == schedule;
    } else {
      var front, a := later[..|later| - 1], later[|later| - 1];
      assert schedule + front + [a] == schedule + later;
      DeadStaysSilent(schedule, front, r);
      SilentOnce(After(schedule), schedule + front, a, r);
    }
  }

  /** Still dead, and not woken since. */
  predicate Silent(before: State, now: State, r: nat) {
    Dead(now, r) && Wakes(now, r) == Wakes(before, r)
  }

  lemma SilentOnce(before: State, schedule: seq<Action>, a: Action, r: nat)
    requires Silent(before, After(schedule), r)
    ensures Silent(before, After(schedule + [a]), r)
  {
    Invariant(schedule);
    DeadStep(After(schedule), a, r);
    AfterOne(schedule, a);
  }

  /** The subscriber returned without having seen the flag. */
  predicate Settled(s: State, r: nat) {
    r in s.threads && (s.threads[r].Subscribed? || s.threads[r].Dropped?) && s.selfWakes[r] == 0
  }

  /** The first canceller returned without having woken the registration. */
  predicate Missed(s: State, r: nat) {
    CancelReturned(s) && s.cancelWakes[r] == 0
  }

  lemma SettledStep(s: State, a: Action, r: nat)
    requires Inv(s)
    ensures Settled(s, r) ==> Settled(Act(s, a), r)
    ensures Missed(s, r) ==> Missed(Act(s, a), r)
  {
    if a.Run? && a.thread in s.threads {
      assert ThreadOk(s, a.thread);
    }
  }

  lemma {:induction false} SettledStays(schedule: seq<Action>, later: seq<Action>, r: nat)
    ensures Settled(After(schedule), r) ==> Settled(After(schedule + later), r)
    ensures Missed(After(schedule), r) ==> Missed(After(schedule + later), r)
    decreases |later|
  {
    if later == [] {
      assert schedule + later == schedule;
    } else {
      var front, a := later[..|later| - 1], later[|later| - 1];
      SettledStays(schedule, front, r);
      Invariant(schedule + front);
      SettledStep(After(schedule + front), a, r);
      AfterOne(schedule + front, a);
      assert schedule + front + [a] == schedule + later;
    }
  }

  /**
   * Without a race the wake is exact: a subscriber that returned before the flag was set, or one that
   * started only after the first canceller returned, is woken exactly once if it keeps its subscription.
   */
  lemma ExactlyOnceWithoutRace(schedule: seq<Action>, later: seq<Action>, r: nat)
    requires var s := After(schedule);
             (!s.flag && r in s.threads && s.threads[r].Subscribed?) || (CancelReturned(s) && r !in s.threads)
    ensures var s := After(schedule + later);
            CancelReturned(s) && r in s.threads && s.threads[r].Subscribed? ==> Wakes(s, r) == 1
  {
    Invariant(schedule);
    assert Tracked(After(schedule), r);
    SettledStays(schedule, later, r);
    Invariant(schedule + later);
    assert Tracked(After(schedule + later), r);
  }

  /** Dropping a subscription that no canceller has taken retires its registration at once. */
  lemma DropRetires(schedule: seq<Action>, r: nat)
    requires var s := After(schedule); r in s.threads && s.threads[r].Subscribed? && r !in Pending(s)
    ensures Dead(After(schedule + [Run(r)]), r)
  {
    Invariant(schedule);
    var s := After(schedule);
    assert ThreadOk(s, r);
    AfterOne(schedule, Run(r));
    DropKept(s, r, r);
  }

  // ---------------------------------------------------------------- progress

  /** The most steps that are left to the operation of a thread, apart from wakes of registrations still listed. */
  function Remaining(pc: Pc): nat {
    match pc
    case CancelSwap => 5
    case CancelLock => 4
    case CancelCollect => 3
    case CancelUnlock(list) => 2 + |list|
    case CancelWake(list) => 1 + |list|
    case CancelDone => 0
    case SubscribeLock => 6
    case SubscribePush => 5
    case SubscribeUnlock => 3
    case SubscribeCheck => 2
    case SubscribeWake => 1
    case Subscribed => 0
    case Dropped => 0
  }

  /** The sum over all threads named below `n`. */
  function Total(threads: map<nat, Pc>, n: nat): nat {
    if n == 0 then 0 else Total(threads, n - 1) + (if n - 1 in threads then Remaining(threads[n - 1]) else 0)
  }

  function Work(s: State, n: nat): nat {
    Total(s.threads, n) + |s.entries|
  }

  /** All threads are named below `n`. */
  predicate Named(s: State, n: nat) {
    forall t | t in s.threads :: t < n
  }

  /** The thread's operation is unfinished and not waiting for a held mutex. */
  predicate Enabled(s: State, t: nat) {
    && t in s.threads && 0 < Remaining(s.threads[t])
    && ((s.threads[t].CancelLock? || s.threads[t].SubscribeLock?) ==> s.holder.None?)
  }

  predicate Finished(s: State) {
    forall t | t in s.threads :: Remaining(s.threads[t]) == 0
  }

  lemma {:induction false} TotalGoto(threads: map<nat, Pc>, n: nat, t: nat, pc: Pc)
    requires t in threads
    ensures t < n ==> Total(threads[t := pc], n) + Remaining(threads[t]) == Total(threads, n) + Remaining(pc)
    ensures n <= t ==> Total(threads[t := pc], n) == Total(threads, n)
  {
    if n != 0 {
      TotalGoto(threads, n - 1, t, pc);
    }
  }

  lemma {:induction false} FilterAliveShorter(s: State, list: seq<nat>)
    ensures |FilterAlive(s, list)| <= |list|
  {
    if list != [] {
      FilterAliveShorter(s, list[1..]);
    }
  }

  lemma StepMoves(s: State, t: nat)
    requires Enabled(s, t)
    ensures t in Step(s, t).threads && Step(s, t).threads == s.threads[t := Step(s, t).threads[t]]
  {
  }

  predicate Subscribes(pc: Pc) {
    KeepsPc(pc) || pc.Dropped?
  }

  lemma CancelRank(s: State, t: nat)
    requires Enabled(s, t) && !Subscribes(s.threads[t])
    ensures t in Step(s, t).threads
    ensures Remaining(Step(s, t).threads[t]) + |Step(s, t).entries| < Remaining(s.threads[t]) + |s.entries|
  {
    if s.threads[t].CancelCollect? {
      FilterAliveShorter(s, s.entries);
    }
  }

  lemma SubscribeRank(s: State, t: nat)
    requires Enabled(s, t) && Subscribes(s.threads[t])
    ensures t in Step(s, t).threads
    ensures Remaining(Step(s, t).threads[t]) + |Step(s, t).entries| < Remaining(s.threads[t]) + |s.entries|
  {
    if s.threads[t].SubscribePush? {
      FilterAliveShorter(s, s.entries);
    }
  }

  /** Every step of an enabled thread leaves strictly less to do. */
  lemma StepShrinks(s: State, t: nat, n: nat)
    requires Enabled(s, t) && t < n
    ensures Work(Step(s, t), n) < Work(s, n)
  {
    StepMoves(s, t);
    if Subscribes(s.threads[t]) {
      SubscribeRank(s, t);
    } else {
      CancelRank(s, t);
    }
    TotalGoto(s.threads, n, t, Step(s, t).threads[t]);
  }

  /** The protocol has no deadlock: as long as some operation is unfinished, some thread is enabled. */
  lemma SomeEnabled(s: State, u: nat) returns (t: nat)
    requires Control(s) && u in s.threads && 0 < Remaining(s.threads[u])
    ensures Enabled(s, t)
  {
    t := if s.holder.Some? then s.holder.value else u;
  }

  /** The same threads, and every owner still keeps its registration. */
  ghost predicate OwnersKept(s: State, s': State) {
    s'.threads.Keys == s.threads.Keys && forall r | Keeps(s, r) :: Keeps(s', r)
  }

  lemma StepKeepsOwners(s: State, t: nat)
    requires Enabled(s, t)
    ensures OwnersKept(s, Step(s, t))
  {
    StepMoves(s, t);
  }

  lemma EnabledAfter(schedule: seq<Action>, s: State, u: nat) returns (t: nat)
    requires s == After(schedule) && u in s.threads && 0 < Remaining(s.threads[u])
    ensures Enabled(s, t)
  {
    Invariant(schedule);
    t := SomeEnabled(s, u);
  }

  /** One step of an enabled thread. */
  lemma Advance(schedule: seq<Action>, s: State, t: nat, n: nat) returns (next: State)
    requires s == After(schedule) && Named(s, n) && Enabled(s, t)
    ensures next == After(schedule + [Run(t)]) && Named(next, n) && Work(next, n) < Work(s, n) && OwnersKept(s, next)
  {
    next := Step(s, t);
    StepShrinks(s, t, n);
    StepKeepsOwners(s, t);
    AfterOne(schedule, Run(t));
  }

  /** The later actions are steps only, and lead from one schedule to a state. */
  ghost predicate Reaches(schedule: seq<Action>, later: seq<Action>, last: State) {
    (forall k | 0 <= k < |later| :: later[k].Run?) && last == After(schedule + later)
  }

  lemma ReachesNow(schedule: seq<Action>)
    ensures Reaches(schedule, [], After(schedule))
  {
    assert schedule + [] == schedule;
  }

  lemma ReachesFirst(schedule: seq<Action>, t: nat, rest: seq<Action>, last: State)
    requires Reaches(schedule + [Run(t)], rest, last)
    ensures Reaches(schedule, [Run(t)] + rest, last)
  {
    assert schedule + ([Run(t)] + rest) == schedule + [Run(t)] + rest;
  }

  /** Steps of enabled threads that bring every started operation to its end; nobody drops a subscription meanwhile. */
  lemma {:induction false} RunOut(schedule: seq<Action>, s: State, n: nat) returns (later: seq<Action>, last: State)
    requires s == After(schedule) && Named(s, n)
    ensures |later| <= Work(s, n) && Reaches(schedule, later, last) && Finished(last) && OwnersKept(s, last)
    decreases Work(s, n)
  {
    if u :| u in s.threads && 0 < Remaining(s.threads[u]) {
      var t := EnabledAfter(schedule, s, u);
      var next := Advance(schedule, s, t, n);
      var rest;
      rest, last := RunOut(schedule + [Run(t)], next, n);
      later := [Run(t)] + rest;
      ReachesFirst(schedule, t, rest, last);
    } else {
      later, last := [], s;
      ReachesNow(schedule);
    }
  }

  function Names(schedule: seq<Action>): nat {
    if schedule == [] then 0
    else
      var n, t := Names(schedule[..|schedule| - 1]), schedule[|schedule| - 1].thread;
      if t < n then n else t + 1
  }

  lemma NamedStep(s: State, a: Action, n: nat)
    requires Named(s, n) && a.thread < n
    ensures Named(Act(s, a), n)
  {
    assert Act(s, a).threads.Keys <= s.threads.Keys + {a.thread};
  }

  lemma {:induction false} NamesBound(schedule: seq<Action>)
    ensures Named(After(schedule), Names(schedule))
  {
    if schedule != [] {
      var front := schedule[..|schedule| - 1];
      NamesBound(front);
      NamedStep(After(front), schedule[|schedule| - 1], Names(schedule));
    }
  }

  predicate Cancels(s: State, t: nat) {
    t in s.threads && (s.threads[t].CancelSwap? || Winning(s.threads[t]) || s.threads[t].CancelDone?)
  }

  lemma OthersUnmoved(s: State, a: Action, t: nat)
    requires t in s.threads && t != a.thread
    ensures t in Act(s, a).threads && Act(s, a).threads[t] == s.threads[t]
  {
  }

  /** A set flag stays set, and a cancel operation stays one. */
  predicate Onward(s: State, s': State, t: nat) {
    (s.flag ==> s'.flag) && (Cancels(s, t) ==> Cancels(s', t))
  }

  lemma OnwardStep(s: State, a: Action, t: nat)
    ensures Onward(s, Act(s, a), t)
  {
    if t in s.threads && t != a.thread {
      OthersUnmoved(s, a, t);
    }
  }

  lemma OnwardOnce(before: State, schedule: seq<Action>, a: Action, t: nat)
    requires Onward(before, After(schedule), t)
    ensures Onward(before, After(schedule + [a]), t)
  {
    AfterOne(schedule, a);
    OnwardStep(After(schedule), a, t);
  }

  lemma {:induction false} OnwardStays(schedule: seq<Action>, later: seq<Action>, t: nat)
    ensures Onward(After(schedule), After(schedule + later), t)
    decreases |later|
  {
    if later == [] {
      assert schedule + later == schedule;
    } else {
      var front, a := later[..|later| - 1], later[|later| - 1];
      assert schedule + front + [a] == schedule + later;
      OnwardStays(schedule, front, t);
      OnwardOnce(After(schedule), schedule + front, a, t);
    }
  }

  lemma {:induction false} CountNamed(threads: set<nat>, n: nat)
    requires forall t | t in threads :: t < n
    ensures Count(threads, n) == |threads|
  {
    if n == 0 {
      assert threads == {};
    } else {
      var rest := threads - {n - 1};
      CountNamed(rest, n - 1);
      CountWithout(threads, n - 1, n - 1);
    }
  }

  function Count(threads: set<nat>, n: nat): nat {
    if n == 0 then 0 else Count(threads, n - 1) + (if n - 1 in threads then 1 else 0)
  }

  lemma {:induction false} CountWithout(threads: set<nat>, t: nat, n: nat)
    requires n <= t
    ensures Count(threads - {t}, n) == Count(threads, n)
  {
    if n != 0 {
      CountWithout(threads, t, n - 1);
    }
  }

  lemma {:induction false} TotalBounded(s: State, n: nat)
    requires Control(s)
    ensures Total(s.threads, n) <= 6 * Count(s.threads.Keys, n) + (if s.winner.Some? && s.winner.value < n then |Pending(s)| else 0)
  {
    if n != 0 {
      TotalBounded(s, n - 1);
      if n - 1 in s.threads {
        assert ThreadOk(s, n - 1);
      }
    }
  }

  lemma WorkBounded(s: State, n: nat)
    requires Control(s) && Named(s, n)
    ensures Work(s, n) <= 6 * |s.threads| + |s.entries| + |Pending(s)|
  {
    TotalBounded(s, n);
    CountNamed(s.threads.Keys, n);
    assert |s.threads.Keys| == |s.threads|;
  }

  /**
   * Progress: after every schedule there are finitely many further steps, within the explicit bound, after which
   * every started operation has returned. If the token was cancelled, or any cancel was started, every registration
   * owned at that time has then been woken.
   */
  lemma Progress(schedule: seq<Action>) returns (later: seq<Action>)
    ensures forall k | 0 <= k < |later| :: later[k].Run?
    ensures var s := After(schedule); |later| <= 6 * |s.threads| + |s.entries| + |Pending(s)|
    ensures var s, s' := After(schedule), After(schedule + later);
            && Finished(s') && (s.flag ==> s'.flag)
            && (forall t | Cancels(s, t) :: t in s'.threads && s'.threads[t].CancelDone? && s'.flag && CancelReturned(s'))
            && (forall r | Keeps(s, r) :: r in s'.threads && s'.threads[r].Subscribed? && (s'.flag ==> 1 <= Wakes(s', r)))
  {
    var s, n := After(schedule), Names(schedule);
    NamesBound(schedule);
    Invariant(schedule);
    WorkBounded(s, n);
    var s';
    later, s' := RunOut(schedule, s, n);
    Invariant(schedule + later);
    OnwardStays(schedule, later, 0);
    forall r | Keeps(s, r) ensures r in s'.threads && s'.threads[r].Subscribed? && (s'.flag ==> 1 <= Wakes(s', r)) {
      assert Keeps(s', r);
      NoLostWake(schedule + later, r);
    }
    forall t | Cancels(s, t) ensures t in s'.threads && s'.threads[t].CancelDone? && s'.flag && CancelReturned(s') {
      OnwardStays(schedule, later, t);
      assert ThreadOk(s', t);
    }
  }

  /** Cancelling at any time leads, in finitely many steps, to a set flag, a returned canceller and a wake for every owner. */
  lemma CancelCompletes(schedule: seq<Action>, t: nat) returns (later: seq<Action>)
    requires t !in After(schedule).threads
    ensures forall k | 0 <= k < |later| :: later[k].Run?
    ensures var s' := After(schedule + [Spawn(t, Cancel)] + later);
            && t in s'.threads && s'.threads[t].CancelDone? && s'.flag
            && forall r | Keeps(After(schedule), r) :: r in s'.threads && s'.threads[r].Subscribed? && 1 <= Wakes(s', r)
  {
    AfterOne(schedule, Spawn(t, Cancel));
    var s := After(schedule + [Spawn(t, Cancel)]);
    assert Cancels(s, t);
    later := Progress(schedule + [Spawn(t, Cancel)]);
    forall r | Keeps(After(schedule), r) ensures Keeps(s, r) {
    }
  }

  /** Subscribing at any time returns after finitely many steps, woken if the token is cancelled. */
  lemma SubscribeCompletes(schedule: seq<Action>, r: nat) returns (later: seq<Action>)
    requires r !in After(schedule).threads
    ensures forall k | 0 <= k < |later| :: later[k].Run?
    ensures var s' := After(schedule + [Spawn(r, Subscribe)] + later);
            && r in s'.threads && s'.threads[r].Subscribed? && (After(schedule).flag ==> 1 <= Wakes(s', r))
  {
    AfterOne(schedule, Spawn(r, Subscribe));
    assert Keeps(After(schedule + [Spawn(r, Subscribe)]), r);
    later := Progress(schedule + [Spawn(r, Subscribe)]);
  }
}
