/**
 * Shutdown of the enforcer, step by step: any number of refreshes (reload, refresh
 * and rule edits alike), of calls that start the periodic reloader, and of Close
 * calls, in every interleaving.
 *
 * Locks, the once guard, the closed flag and the two channels are explicit.  A
 * refresh touches the store only in the phase `Reading`.
 */
module EnforcerLifecycle {
  import opened Common

  /** One refresh: not begun, past the first closed check, holding the lock, using the store. */
  datatype Refresh = Idle | Checked | Locked | Reading

  /** The background goroutine; `Registered` is recorded but not yet spawned. */
  datatype Reloader = Absent | Registered | Running(refresh: Refresh) | Exited

  datatype Starter = Ready | WantsLock | HasLock | Spawning | Started

  /** A Close call.  `found` is whether it saw a reloader to wait for. */
  datatype Closer =
    | NotCalled | Blocked | Won | WantsLife | HasLife | Cancelling(found: bool) | Awaiting(found: bool)
    | WantsRefresh | HasRefresh | Published | Leaving | Returned

  datatype Owner = ARefresher(id: nat) | TheReloader | AStarter(id: nat) | ACloser(id: nat)

  datatype State = State(
    refreshers: map<nat, Refresh>, starters: map<nat, Starter>, closers: map<nat, Closer>, reloader: Reloader,
    refreshMu: Option<Owner>, lifecycleMu: Option<Owner>,
    winner: Option<nat>, onceDone: bool,
    closed: bool, closeDone: bool, cancelled: bool)

  datatype Step =
    | StepRefresher(id: nat)
    | StepStarter(id: nat)
    | StepReloader
    | Tick
    | CancelParent
    | StepCloser(id: nat)

  // ---------------------------------------------------------------------
  // A refresh, by a caller or by the reloader
  // ---------------------------------------------------------------------

  predicate CanMove(phase: Refresh, mu: Option<Owner>) {
    phase == Checked ==> mu.None?
  }

  function Moved(phase: Refresh, closed: bool): Refresh {
    match phase
    case Idle => if closed then Idle else Checked
    case Checked => Locked
    case Locked => if closed then Idle else Reading
    case Reading => Idle
  }

  function MovedMu(owner: Owner, phase: Refresh, closed: bool, mu: Option<Owner>): Option<Owner> {
    match phase
    case Idle => mu
    case Checked => Some(owner)
    case Locked => if closed then None else mu
    case Reading => None
  }

  predicate Holds(phase: Refresh) {
    phase == Locked || phase == Reading
  }

  ghost predicate NextRefresher(s: State, id: nat, s': State) {
    && id in s.refreshers && CanMove(s.refreshers[id], s.refreshMu)
    && s' == s.(refreshers := s.refreshers[id := Moved(s.refreshers[id], s.closed)],
                refreshMu := MovedMu(ARefresher(id), s.refreshers[id], s.closed, s.refreshMu))
  }

  /** The reloader leaves its loop when its context is cancelled, and otherwise refreshes at a tick. */
  ghost predicate NextReloader(s: State, s': State) {
    && s.reloader.Running? && CanMove(s.reloader.refresh, s.refreshMu)
    && if s.reloader.refresh == Idle
       then s.cancelled && s' == s.(reloader := Exited)
       else s' == s.(reloader := Running(Moved(s.reloader.refresh, s.closed)),
                     refreshMu := MovedMu(TheReloader, s.reloader.refresh, s.closed, s.refreshMu))
  }

  ghost predicate NextTick(s: State, s': State) {
    s.reloader == Running(Idle) && s' == s.(reloader := Running(Moved(Idle, s.closed)))
  }

  // ---------------------------------------------------------------------
  // Starting the reloader
  // ---------------------------------------------------------------------

  ghost function StartPhase(s: State, p: Starter): Starter {
    match p
    case Ready => WantsLock
    case WantsLock => HasLock
    case HasLock => if s.closed || s.reloader != Absent then Started else Spawning
    case Spawning => Started
    case Started => Started
  }

  /** One step of a starting call: take the lock, register unless closed or registered, release, spawn. */
  ghost predicate NextStarter(s: State, id: nat, s': State) {
    id in s.starters &&
    var p := s.starters[id];
    && p != Started && (p == WantsLock ==> s.lifecycleMu.None?)
    && s' == s.(starters := s.starters[id := StartPhase(s, p)],
                lifecycleMu := if p == WantsLock then Some(AStarter(id))
                               else if p == HasLock then None else s.lifecycleMu,
                reloader := if StartPhase(s, p) == Spawning then Registered
                            else if p == Spawning then Running(Idle) else s.reloader)
  }

  // ---------------------------------------------------------------------
  // Close
  // ---------------------------------------------------------------------

  ghost predicate CanClose(s: State, p: Closer) {
    match p
    case Blocked => s.onceDone && s.closeDone
    case WantsLife => s.lifecycleMu.None?
    case Awaiting(found) => found ==> s.reloader == Exited
    case WantsRefresh => s.refreshMu.None?
    case Leaving => s.closeDone
    case Returned => false
    case _ => true
  }

  ghost function ClosePhase(s: State, p: Closer): Closer {
    match p
    case NotCalled => if s.winner.None? then Won else Blocked
    case Blocked => Returned
    case Won => WantsLife
    case WantsLife => HasLife
    case HasLife => Cancelling(s.reloader != Absent)
    case Cancelling(found) => Awaiting(found)
    case Awaiting(_) => WantsRefresh
    case WantsRefresh => HasRefresh
    case HasRefresh => Published
    case Published => Leaving
    case Leaving => Returned
    case Returned => Returned
  }

  /**
   * One step of a Close call.  The first caller wins the once guard and sets the
   * flag, looks up the reloader under its lock, cancels it, waits for its end,
   * takes the refresh lock, closes the channel and releases; the others wait.
   */
  ghost predicate NextCloser(s: State, id: nat, s': State) {
    id in s.closers &&
    var p := s.closers[id];
    && CanClose(s, p)
    && s' == s.(closers := s.closers[id := ClosePhase(s, p)],
                winner := if p == NotCalled && s.winner.None? then Some(id) else s.winner,
                closed := s.closed || p == Won,
                lifecycleMu := if p == WantsLife then Some(ACloser(id))
                               else if p == HasLife then None else s.lifecycleMu,
                cancelled := s.cancelled || (p.Cancelling? && p.found),
                refreshMu := if p == WantsRefresh then Some(ACloser(id))
                             else if p == Published then None else s.refreshMu,
                closeDone := s.closeDone || p == HasRefresh,
                onceDone := s.onceDone || p == Published)
  }

  ghost predicate Next(s: State, step: Step, s': State) {
    match step
    case StepRefresher(id) => NextRefresher(s, id, s')
    case StepStarter(id) => NextStarter(s, id, s')
    case StepReloader => NextReloader(s, s')
    case Tick => NextTick(s, s')
    case CancelParent => s' == s.(cancelled := true)
    case StepCloser(id) => NextCloser(s, id, s')
  }

  ghost predicate Init(s: State) {
    && (forall id :: id in s.refreshers ==> s.refreshers[id] == Idle)
    && (forall id :: id in s.starters ==> s.starters[id] == Ready)
    && (forall id :: id in s.closers ==> s.closers[id] == NotCalled)
    && s.reloader == Absent && s.refreshMu.None? && s.lifecycleMu.None?
    && s.winner.None? && !s.onceDone && !s.closed && !s.closeDone && !s.cancelled
  }

  // ---------------------------------------------------------------------
  // The invariant
  // ---------------------------------------------------------------------

  ghost predicate RefreshLockInv(s: State) {
    && (forall id :: id in s.refreshers ==> (Holds(s.refreshers[id]) <==> s.refreshMu == Some(ARefresher(id))))
    && ((s.reloader.Running? && Holds(s.reloader.refresh)) <==> s.refreshMu == Some(TheReloader))
    && (forall id :: id in s.closers ==>
          ((s.closers[id] == HasRefresh || s.closers[id] == Published) <==> s.refreshMu == Some(ACloser(id))))
    && (s.refreshMu.Some? ==> match s.refreshMu.value
                              case ARefresher(id) => id in s.refreshers
                              case TheReloader => true
                              case AStarter(_) => false
                              case ACloser(id) => id in s.closers)
  }

  ghost predicate LifeLockInv(s: State) {
    && (forall id :: id in s.starters ==> (s.starters[id] == HasLock <==> s.lifecycleMu == Some(AStarter(id))))
    && (forall id :: id in s.closers ==> (s.closers[id] == HasLife <==> s.lifecycleMu == Some(ACloser(id))))
    && (s.lifecycleMu.Some? ==> match s.lifecycleMu.value
                                case ARefresher(_) => false
                                case TheReloader => false
                                case AStarter(id) => id in s.starters
                                case ACloser(id) => id in s.closers)
  }

  /** The phase of the one Close call that does the work. */
  ghost predicate WinnerPhase(s: State, p: Closer) {
    && p != NotCalled && p != Blocked
    && (s.closed <==> p != Won)
    && (s.closeDone <==> p == Published || p == Leaving || p == Returned)
    && (s.onceDone <==> p == Leaving || p == Returned)
    && (p.Cancelling? || p.Awaiting? ==> (p.found <==> s.reloader != Absent))
    && (p.Awaiting? && p.found ==> s.cancelled)
    && (p == WantsRefresh || p == HasRefresh || s.closeDone ==> s.reloader == Absent || s.reloader == Exited)
  }

  ghost predicate OnceInv(s: State) {
    && (s.winner.None? ==> !s.closed && !s.closeDone && !s.onceDone)
    && (s.winner.Some? ==> s.winner.value in s.closers && WinnerPhase(s, s.closers[s.winner.value]))
    && (forall id :: id in s.closers && s.winner != Some(id) ==>
          s.closers[id] == NotCalled || (s.closers[id] == Blocked && s.winner.Some?)
            || (s.closers[id] == Returned && s.onceDone))
  }

  /** Nothing uses the store once the closing of the channel is visible. */
  ghost predicate QuietInv(s: State) {
    s.closeDone ==>
      && (forall id :: id in s.refreshers ==> s.refreshers[id] != Reading)
      && (s.reloader == Absent || s.reloader == Exited)
  }

  /** Exactly a registered reloader has a starter that is about to spawn it. */
  ghost predicate SpawnInv(s: State) {
    && (s.reloader == Registered ==> exists id :: id in s.starters && s.starters[id] == Spawning)
    && (forall id :: id in s.starters && s.starters[id] == Spawning ==> s.reloader == Registered)
    && (forall a, b ::
          a in s.starters && b in s.starters && s.starters[a] == s.starters[b] == Spawning ==> a == b)
  }

  ghost predicate Inv(s: State) {
    RefreshLockInv(s) && LifeLockInv(s) && OnceInv(s) && QuietInv(s) && SpawnInv(s)
  }

  lemma InitEstablishesInv(s: State)
    requires Init(s)
    ensures Inv(s)
  {
  }

  lemma RefresherKeepsInv(s: State, id: nat, s': State)
    requires Inv(s) && NextRefresher(s, id, s')
    ensures Inv(s')
  {
  }

  lemma ReloaderKeepsInv(s: State, s': State)
    requires Inv(s) && NextReloader(s, s')
    ensures Inv(s')
  {
    assert RefreshLockInv(s') && LifeLockInv(s');
  }

  lemma TickKeepsInv(s: State, s': State)
    requires Inv(s) && NextTick(s, s')
    ensures Inv(s')
  {
  }

  lemma StarterKeepsOthers(s: State, id: nat, s': State)
    requires Inv(s) && NextStarter(s, id, s')
    ensures RefreshLockInv(s') && LifeLockInv(s') && OnceInv(s') && QuietInv(s')
  {
  }

  lemma StarterKeepsSpawn(s: State, id: nat, s': State)
    requires Inv(s) && NextStarter(s, id, s')
    ensures SpawnInv(s')
  {
    if s'.reloader == Registered {
      if s.reloader == Registered {
        var t :| t in s.starters && s.starters[t] == Spawning;
        assert t in s'.starters && s'.starters[t] == Spawning;
      } else {
        assert id in s'.starters && s'.starters[id] == Spawning;
      }
    }
  }

  lemma CloserKeepsLocks(s: State, id: nat, s': State)
    requires Inv(s) && NextCloser(s, id, s')
    ensures RefreshLockInv(s') && LifeLockInv(s')
  {
  }

  lemma CloserKeepsOnce(s: State, id: nat, s': State)
    requires Inv(s) && NextCloser(s, id, s')
    ensures OnceInv(s')
  {
  }

  lemma CloserKeepsQuiet(s: State, id: nat, s': State)
    requires Inv(s) && NextCloser(s, id, s')
    ensures QuietInv(s') && SpawnInv(s')
  {
  }

  lemma NextKeepsInv(s: State, step: Step, s': State)
    requires Inv(s) && Next(s, step, s')
    ensures Inv(s')
  {
    match step
    case StepRefresher(id) => RefresherKeepsInv(s, id, s');
    case StepStarter(id) =>
      StarterKeepsOthers(s, id, s');
      StarterKeepsSpawn(s, id, s');
    case StepReloader => ReloaderKeepsInv(s, s');
    case Tick => TickKeepsInv(s, s');
    case CancelParent =>
    case StepCloser(id) =>
      CloserKeepsLocks(s, id, s');
      CloserKeepsOnce(s, id, s');
      CloserKeepsQuiet(s, id, s');
  }

  /** While the enforcer is open, a refresh that nobody disturbs uses the store and leaves no trace. */
  lemma RefreshAlone(s: State, id: nat) returns (checked: State, locked: State, reading: State)
    requires id in s.refreshers && s.refreshers[id] == Idle && s.refreshMu.None? && !s.closed
    ensures Next(s, StepRefresher(id), checked) && Next(checked, StepRefresher(id), locked)
    ensures Next(locked, StepRefresher(id), reading) && Next(reading, StepRefresher(id), s)
    ensures reading.refreshers[id] == Reading && reading.refreshMu == Some(ARefresher(id))
  {
    checked := s.(refreshers := s.refreshers[id := Checked]);
    locked := s.(refreshers := s.refreshers[id := Locked], refreshMu := Some(ARefresher(id)));
    reading := s.(refreshers := s.refreshers[id := Reading], refreshMu := Some(ARefresher(id)));
    assert s == reading.(refreshers := reading.refreshers[id := Idle], refreshMu := None) by {
      assert s.refreshers == reading.refreshers[id := Idle];
    }
  }

  /** While it is open, so does the reloader at a tick. */
  lemma TickAlone(s: State) returns (checked: State, locked: State, reading: State)
    requires s.reloader == Running(Idle) && s.refreshMu.None? && !s.closed
    ensures Next(s, Tick, checked) && Next(checked, StepReloader, locked)
    ensures Next(locked, StepReloader, reading) && Next(reading, StepReloader, s)
    ensures reading.reloader == Running(Reading) && reading.refreshMu == Some(TheReloader)
  {
    checked := s.(reloader := Running(Checked));
    locked := s.(reloader := Running(Locked), refreshMu := Some(TheReloader));
    reading := s.(reloader := Running(Reading), refreshMu := Some(TheReloader));
  }

  /** A first starting call that nobody disturbs spawns the reloader; once closed, none does. */
  lemma StartAlone(s: State, id: nat) returns (wanting: State, locked: State, left: State, last: State)
    requires id in s.starters && s.starters[id] == Ready && s.lifecycleMu.None?
    ensures Next(s, StepStarter(id), wanting) && Next(wanting, StepStarter(id), locked)
    ensures Next(locked, StepStarter(id), left) && left.lifecycleMu.None?
    ensures if !s.closed && s.reloader == Absent
            then left.reloader == Registered && Next(left, StepStarter(id), last)
                 && last.reloader == Running(Idle) && last.starters[id] == Started
            else left.reloader == s.reloader && left.starters[id] == Started
  {
    wanting := s.(starters := s.starters[id := WantsLock]);
    locked := s.(starters := s.starters[id := HasLock], lifecycleMu := Some(AStarter(id)));
    var spawns := !s.closed && s.reloader == Absent;
    left := s.(starters := s.starters[id := if spawns then Spawning else Started],
               reloader := if spawns then Registered else s.reloader);
    last := s.(starters := s.starters[id := Started], reloader := Running(Idle));
    assert wanting.starters[id := HasLock] == locked.starters;
    assert locked.starters[id := left.starters[id]] == left.starters;
    assert left.starters[id := Started] == last.starters;
  }

  ghost predicate Run(states: seq<State>, steps: seq<Step>) {
    && |states| == |steps| + 1 && Init(states[0])
    && forall i :: 0 <= i < |steps| ==> Next(states[i], steps[i], states[i + 1])
  }

  lemma {:induction false} RunKeepsInv(states: seq<State>, steps: seq<Step>, i: nat)
    requires Run(states, steps) && i < |states|
    ensures Inv(states[i])
  {
    if i == 0 {
      InitEstablishesInv(states[0]);
    } else {
      RunKeepsInv(states, steps, i - 1);
      NextKeepsInv(states[i - 1], steps[i - 1], states[i]);
    }
  }

  ghost predicate SomeCloseReturned(s: State) {
    exists id :: id in s.closers && s.closers[id] == Returned
  }

  /** No refresh uses the store, and no reloader is left or about to be spawned. */
  ghost predicate Quiet(s: State) {
    && (forall id :: id in s.refreshers ==> s.refreshers[id] != Reading)
    && (s.reloader == Absent || s.reloader == Exited)
    && (forall id :: id in s.starters ==> s.starters[id] != Spawning)
  }

  lemma ReturnedIsQuiet(s: State)
    requires Inv(s) && SomeCloseReturned(s)
    ensures s.closed && s.closeDone && Quiet(s)
  {
  }

  lemma NextKeepsReturned(s: State, step: Step, s': State, id: nat)
    requires Next(s, step, s') && id in s.closers && s.closers[id] == Returned
    ensures id in s'.closers && s'.closers[id] == Returned
  {
    match step
    case StepCloser(c) => ReturnedCloserStays(s, c, s', id);
    case StepStarter(t) => assert s'.closers == s.closers;
    case _ =>
  }

  lemma ReturnedCloserStays(s: State, c: nat, s': State, id: nat)
    requires NextCloser(s, c, s') && id in s.closers && s.closers[id] == Returned
    ensures id in s'.closers && s'.closers[id] == Returned
  {
  }

  lemma {:induction false} ReturnedStays(states: seq<State>, steps: seq<Step>, i: nat, j: nat)
    requires Run(states, steps) && i <= j < |states| && SomeCloseReturned(states[i])
    ensures SomeCloseReturned(states[j])
  {
    if i < j {
      ReturnedStays(states, steps, i, j - 1);
      var id :| id in states[j - 1].closers && states[j - 1].closers[id] == Returned;
      NextKeepsReturned(states[j - 1], steps[j - 1], states[j], id);
    }
  }

  /**
   * Once any Close call has returned, from then on no refresh uses the store, none
   * begins to, and no reloader runs, in every interleaving.
   */
  lemma QuietEverAfterClose(states: seq<State>, steps: seq<Step>, i: nat, j: nat)
    requires Run(states, steps) && i <= j < |states| && SomeCloseReturned(states[i])
    ensures Quiet(states[j])
  {
    ReturnedStays(states, steps, i, j);
    RunKeepsInv(states, steps, j);
    ReturnedIsQuiet(states[j]);
  }

  // ---------------------------------------------------------------------
  // Close does not get stuck
  // ---------------------------------------------------------------------

  /** The step goes on with a call that has begun, or with the running reloader. */
  ghost predicate InFlight(s: State, step: Step) {
    match step
    case StepRefresher(id) => id in s.refreshers && s.refreshers[id] != Idle
    case StepStarter(id) => id in s.starters && s.starters[id] != Ready
    case StepReloader => true
    case Tick => false
    case CancelParent => false
    case StepCloser(id) => id in s.closers && s.closers[id] != NotCalled
  }

  ghost predicate CanGoOn(s: State) {
    exists step, s' :: InFlight(s, step) && Next(s, step, s')
  }

  lemma CanStepRefresher(s: State, id: nat)
    requires id in s.refreshers && Holds(s.refreshers[id])
    ensures CanGoOn(s)
  {
    var s' := s.(refreshers := s.refreshers[id := Moved(s.refreshers[id], s.closed)],
                 refreshMu := MovedMu(ARefresher(id), s.refreshers[id], s.closed, s.refreshMu));
    assert InFlight(s, StepRefresher(id)) && Next(s, StepRefresher(id), s');
  }

  /** Whoever holds the refresh lock can go on. */
  lemma RefreshLockMoves(s: State, id: nat)
    requires Inv(s) && s.winner == Some(id) && s.refreshMu.Some?
    requires s.closers[id] != HasRefresh && s.closers[id] != Published
    ensures CanGoOn(s)
  {
    match s.refreshMu.value
    case ARefresher(r) => CanStepRefresher(s, r);
    case TheReloader =>
      var s' := s.(reloader := Running(Moved(s.reloader.refresh, s.closed)),
                   refreshMu := MovedMu(TheReloader, s.reloader.refresh, s.closed, s.refreshMu));
      assert InFlight(s, StepReloader) && Next(s, StepReloader, s');
    case ACloser(_) =>
  }

  /** A cancelled reloader reaches the end of its loop, or what it waits for moves. */
  lemma ReloaderMoves(s: State, id: nat)
    requires Inv(s) && s.winner == Some(id) && s.closers[id] == Awaiting(true) && s.reloader != Exited
    ensures CanGoOn(s)
  {
    if s.reloader == Registered {
      var t :| t in s.starters && s.starters[t] == Spawning;
      StarterMoves(s, t);
    } else if s.reloader.refresh == Idle {
      assert InFlight(s, StepReloader) && Next(s, StepReloader, s.(reloader := Exited));
    } else if s.reloader.refresh == Checked && s.refreshMu.Some? {
      RefreshLockMoves(s, id);
    } else {
      var s' := s.(reloader := Running(Moved(s.reloader.refresh, s.closed)),
                   refreshMu := MovedMu(TheReloader, s.reloader.refresh, s.closed, s.refreshMu));
      assert InFlight(s, StepReloader) && Next(s, StepReloader, s');
    }
  }

  lemma StarterMoves(s: State, id: nat)
    requires id in s.starters && (s.starters[id] == HasLock || s.starters[id] == Spawning)
    ensures CanGoOn(s)
  {
    var p := s.starters[id];
    var s' := s.(starters := s.starters[id := StartPhase(s, p)],
                 lifecycleMu := if p == HasLock then None else s.lifecycleMu,
                 reloader := if StartPhase(s, p) == Spawning then Registered
                             else if p == Spawning then Running(Idle) else s.reloader);
    assert InFlight(s, StepStarter(id)) && Next(s, StepStarter(id), s');
  }

  lemma CloserMoves(s: State, id: nat)
    requires id in s.closers && s.closers[id] != NotCalled && CanClose(s, s.closers[id])
    ensures CanGoOn(s)
  {
    var p := s.closers[id];
    var s' := s.(closers := s.closers[id := ClosePhase(s, p)],
                 closed := s.closed || p == Won,
                 lifecycleMu := if p == WantsLife then Some(ACloser(id))
                                else if p == HasLife then None else s.lifecycleMu,
                 cancelled := s.cancelled || (p.Cancelling? && p.found),
                 refreshMu := if p == WantsRefresh then Some(ACloser(id))
                              else if p == Published then None else s.refreshMu,
                 closeDone := s.closeDone || p == HasRefresh,
                 onceDone := s.onceDone || p == Published);
    assert InFlight(s, StepCloser(id)) && Next(s, StepCloser(id), s');
  }

  lemma WinnerMoves(s: State, id: nat)
    requires Inv(s) && s.winner == Some(id) && s.closers[id] != Returned
    ensures CanGoOn(s)
  {
    if CanClose(s, s.closers[id]) {
      CloserMoves(s, id);
    } else if s.closers[id] == WantsLife {
      StarterMoves(s, s.lifecycleMu.value.id);
    } else if s.closers[id] == WantsRefresh {
      RefreshLockMoves(s, id);
    } else {
      ReloaderMoves(s, id);
    }
  }

  /**
   * While a Close call is waiting, some call that has begun, or the reloader, can take a
   * step: there is no deadlock.
   */
  lemma CloseIsNeverStuck(s: State, id: nat)
    requires Inv(s) && id in s.closers && s.closers[id] != NotCalled && s.closers[id] != Returned
    ensures CanGoOn(s)
  {
    if s.winner == Some(id) {
      WinnerMoves(s, id);
    } else if s.onceDone {
      CloserMoves(s, id);
    } else {
      WinnerMoves(s, s.winner.value);
    }
  }

  // ---------------------------------------------------------------------
  // Close ends
  // ---------------------------------------------------------------------

  /** The sum of the weights of all entries. */
  ghost function Sum<T>(m: map<nat, T>, weight: T -> nat): nat
    decreases |m|
  {
    if m == map[] then 0 else
    var k :| k in m;
    weight(m[k]) + Sum(m - {k}, weight)
  }

  lemma {:induction false} SumWithout<T>(m: map<nat, T>, weight: T -> nat, k: nat)
    requires k in m
    ensures Sum(m, weight) == weight(m[k]) + Sum(m - {k}, weight)
    decreases |m|
  {
    var j :| j in m && Sum(m, weight) == weight(m[j]) + Sum(m - {j}, weight);
    if j != k {
      SumWithout(m - {j}, weight, k);
      SumWithout(m - {k}, weight, j);
      assert m - {j} - {k} == m - {k} - {j};
    }
  }

  lemma SumOfUpdate<T>(m: map<nat, T>, weight: T -> nat, k: nat, v: T)
    requires k in m
    ensures Sum(m[k := v], weight) + weight(m[k]) == Sum(m, weight) + weight(v)
  {
    SumWithout(m, weight, k);
    SumWithout(m[k := v], weight, k);
    assert m[k := v] - {k} == m - {k};
  }

  /** The steps that each party still has before it, once it has begun and the enforcer is closed. */
  function RefreshLeft(p: Refresh): nat {
    match p
    case Idle => 0
    case Checked => 3
    case Locked => 2
    case Reading => 1
  }

  function StarterLeft(p: Starter): nat {
    match p
    case Ready => 0
    case WantsLock => 4
    case HasLock => 3
    case Spawning => 1
    case Started => 0
  }

  function ReloaderLeft(r: Reloader): nat {
    match r
    case Absent => 0
    case Registered => 1
    case Running(p) => 1 + RefreshLeft(p)
    case Exited => 0
  }

  function CloserLeft(p: Closer): nat {
    match p
    case NotCalled => 0
    case Blocked => 1
    case Won => 10
    case WantsLife => 9
    case HasLife => 8
    case Cancelling(_) => 7
    case Awaiting(_) => 6
    case WantsRefresh => 5
    case HasRefresh => 4
    case Published => 3
    case Leaving => 2
    case Returned => 0
  }

  ghost function Left(s: State): nat {
    Sum(s.refreshers, RefreshLeft) + Sum(s.starters, StarterLeft) + Sum(s.closers, CloserLeft)
    + ReloaderLeft(s.reloader)
  }

  /** The step begins a call of Close, or one that starts the reloader. */
  ghost predicate Begins(s: State, step: Step) {
    match step
    case StepStarter(id) => id in s.starters && s.starters[id] == Ready
    case StepCloser(id) => id in s.closers && s.closers[id] == NotCalled
    case _ => false
  }

  function One(b: bool): nat {
    if b then 1 else 0
  }

  /** The step lowers what is left if it goes on with a call, and else raises it only by a new call. */
  ghost predicate Lowers(s: State, step: Step, s': State) {
    Left(s') + One(InFlight(s, step)) <= Left(s) + 10 * One(Begins(s, step))
  }

  lemma RefresherLowers(s: State, id: nat, s': State)
    requires s.closed && NextRefresher(s, id, s')
    ensures Lowers(s, StepRefresher(id), s')
  {
    SumOfUpdate(s.refreshers, RefreshLeft, id, Moved(s.refreshers[id], s.closed));
  }

  lemma StarterLowers(s: State, id: nat, s': State)
    requires SpawnInv(s) && NextStarter(s, id, s')
    ensures Lowers(s, StepStarter(id), s')
  {
    SumOfUpdate(s.starters, StarterLeft, id, StartPhase(s, s.starters[id]));
  }

  lemma ReloaderLowers(s: State, s': State)
    requires NextReloader(s, s')
    ensures Lowers(s, StepReloader, s')
  {
  }

  lemma CloserLowers(s: State, id: nat, s': State)
    requires NextCloser(s, id, s')
    ensures Lowers(s, StepCloser(id), s')
  {
    SumOfUpdate(s.closers, CloserLeft, id, ClosePhase(s, s.closers[id]));
  }

  /** After the flag is set, steps of calls under way lower what is left, and only new calls raise it. */
  lemma StepLowers(s: State, step: Step, s': State)
    requires SpawnInv(s) && s.closed && Next(s, step, s')
    ensures s'.closed && Lowers(s, step, s')
  {
    match step
    case StepRefresher(id) => RefresherLowers(s, id, s');
    case StepStarter(id) => StarterLowers(s, id, s');
    case StepReloader => ReloaderLowers(s, s');
    case Tick =>
    case CancelParent =>
    case StepCloser(id) => CloserLowers(s, id, s');
  }

  /** How many steps from the ith to the jth go on with a call, and how many begin one. */
  ghost function Taken(states: seq<State>, steps: seq<Step>, i: nat, j: nat): nat
    requires i <= j <= |steps| <= |states|
    decreases j
  {
    if i == j then 0 else Taken(states, steps, i, j - 1) + One(InFlight(states[j - 1], steps[j - 1]))
  }

  ghost function Begun(states: seq<State>, steps: seq<Step>, i: nat, j: nat): nat
    requires i <= j <= |steps| <= |states|
    decreases j
  {
    if i == j then 0 else Begun(states, steps, i, j - 1) + One(Begins(states[j - 1], steps[j - 1]))
  }

  ghost predicate Within(states: seq<State>, steps: seq<Step>, i: nat, j: nat)
    requires i <= j <= |steps| < |states|
  {
    && states[j].closed
    && Taken(states, steps, i, j) + Left(states[j]) <= Left(states[i]) + 10 * Begun(states, steps, i, j)
  }

  lemma OneStepMore(states: seq<State>, steps: seq<Step>, i: nat, j: nat)
    requires i < j <= |steps| < |states| && Within(states, steps, i, j - 1)
    requires states[j].closed && Lowers(states[j - 1], steps[j - 1], states[j])
    ensures Within(states, steps, i, j)
  {
  }

  lemma RunLowers(states: seq<State>, steps: seq<Step>, k: nat)
    requires Run(states, steps) && k < |steps| && states[k].closed
    ensures states[k + 1].closed && Lowers(states[k], steps[k], states[k + 1])
  {
    RunKeepsInv(states, steps, k);
    StepLowers(states[k], steps[k], states[k + 1]);
  }

  lemma {:induction false} StepsLower(states: seq<State>, steps: seq<Step>, i: nat, j: nat)
    requires i <= j <= |steps| < |states| && states[i].closed
    requires forall k :: i <= k < j && states[k].closed ==>
               states[k + 1].closed && Lowers(states[k], steps[k], states[k + 1])
    ensures Within(states, steps, i, j)
    decreases j
  {
    if i < j {
      StepsLower(states, steps, i, j - 1);
      OneStepMore(states, steps, i, j);
    }
  }

  /**
   * In every run, once the closed flag is set, the calls under way and the reloader take
   * no more steps than were left at that moment, plus ten for each call begun since.  As
   * one of them can always go on while a Close call waits, Close ends.
   */
  lemma CloseEndsWithin(states: seq<State>, steps: seq<Step>, i: nat, j: nat)
    requires Run(states, steps) && i <= j < |states| && states[i].closed
    ensures Within(states, steps, i, j)
  {
    forall k | i <= k < j && states[k].closed
      ensures states[k + 1].closed && Lowers(states[k], steps[k], states[k + 1])
    {
      RunLowers(states, steps, k);
    }
    StepsLower(states, steps, i, j);
  }
}
