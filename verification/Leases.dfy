/** Taking a socket path and giving it back, step by step over inodes: a short lock on the
    directory for the length of one operation, and a lock on `<socket>.lock` for as long as the
    listener lives. A bind, a release and a sweep are each several steps; listeners close, leases
    are dropped and processes die between any two of them. */
module Leases {
  import opened Options

  type Inode = nat

  /** Who holds the `flock` on a lock file: the operation under way, or a lease. */
  datatype Holder = Working | Leased(id: nat)

  /** How far giving a lease back has got; everything but `Kept` has the `released` flag up. */
  datatype Phase = Kept | Flagged | GaveUp | Releasing | Finished

  datatype Lease = Lease(lock: Inode, socket: Inode, phase: Phase)

  /** The operation holding the directory lock. */
  datatype Task =
    | Bind(bind: Binding)
    | Sweep(sweep: Sweeping)
    | Release(id: nat, release: Giving)
    | Elsewhere

  datatype Binding =
    | BindTaken
    | BindOpened(lock: Inode)
    | BindFlocked(lock: Inode)
    | BindLocked(lock: Inode)
    | BindDead(lock: Inode)
    | BindClear(lock: Inode)
    | BindBound(lock: Inode, socket: Inode)
    | BindListening(lock: Inode, socket: Inode)

  datatype Sweeping =
    | SweepTaken
    | SweepOpened(lock: Inode)
    | SweepFlocked(lock: Inode)
    | SweepLocked(held: Option<Inode>)
    | SweepDead(held: Option<Inode>)
    | SweepSocketGone(held: Option<Inode>)

  datatype Giving = GiveTaken | GiveMine | GiveSocket | GiveLock

  /** One path: what its two names name, who holds what, and which sockets answer. */
  datatype State = State(task: Option<Task>, leases: map<nat, Lease>, flock: map<Inode, Holder>,
                         lockAt: Option<Inode>, socketAt: Option<Inode>, live: set<Inode>, next: Inode)

  datatype Step =
    | TakeBind | TakeSweep | TakeElsewhere
    | OpenLock | Flock | MatchLock
    | Probe(alive: bool)
    | RemoveSocket | BindSocket | Listen
    | Keep(id: nat)
    | RemoveLock
    | Fail
    | AskRelease(id: nat) | TakeRelease(id: nat) | GiveUpRelease(id: nat)
    | CloseListener(socket: Inode)
    | DropLease(id: nat)
    | Outsider(lock: bool)

  /** The lock file the operation under way holds. */
  function TaskLock(task: Option<Task>): Option<Inode> {
    match task
    case Some(Bind(BindFlocked(lock))) => Some(lock)
    case Some(Bind(BindLocked(lock))) => Some(lock)
    case Some(Bind(BindDead(lock))) => Some(lock)
    case Some(Bind(BindClear(lock))) => Some(lock)
    case Some(Bind(BindBound(lock, _))) => Some(lock)
    case Some(Bind(BindListening(lock, _))) => Some(lock)
    case Some(Sweep(SweepFlocked(lock))) => Some(lock)
    case Some(Sweep(SweepLocked(held))) => held
    case Some(Sweep(SweepDead(held))) => held
    case Some(Sweep(SweepSocketGone(held))) => held
    case _ => None
  }

  /** A dial finds nothing only where nothing listens; anything else counts as an answer. */
  predicate MayAnswer(s: State, alive: bool) {
    alive || s.socketAt.None? || s.socketAt.value !in s.live
  }

  predicate Enabled(s: State, step: Step) {
    match step
    case TakeBind => s.task.None?
    case TakeSweep => s.task.None?
    case TakeElsewhere => s.task.None?
    case OpenLock => s.task in {Some(Bind(BindTaken)), Some(Sweep(SweepTaken))}
    case Flock =>
      || (s.task.Some? && s.task.value.Bind? && s.task.value.bind.BindOpened? && s.task.value.bind.lock !in s.flock)
      || (s.task.Some? && s.task.value.Sweep? && s.task.value.sweep.SweepOpened? && s.task.value.sweep.lock !in s.flock)
    case MatchLock =>
      && s.task.Some?
      && (match s.task.value
         case Bind(at) => at.BindFlocked? && s.lockAt == Some(at.lock)
         case Sweep(at) => at.SweepFlocked?
         case Release(id, at) => id in s.leases && at.GiveTaken?
         case Elsewhere => false)
    case Probe(alive) =>
      && s.task.Some?
      && (match s.task.value
         case Bind(at) => at.BindLocked? && MayAnswer(s, alive)
         case Sweep(at) => at.SweepLocked? && !alive && MayAnswer(s, alive)
         case Release(id, at) => id in s.leases && at.GiveMine?
         case Elsewhere => false)
    case RemoveSocket =>
      && s.task.Some?
      && (match s.task.value
         case Bind(at) => at.BindDead?
         case Sweep(at) => at.SweepDead?
         case Release(id, at) => at.GiveSocket?
         case Elsewhere => false)
    case BindSocket => s.task.Some? && s.task.value.Bind? && s.task.value.bind.BindClear? && s.socketAt.None?
    case Listen => s.task.Some? && s.task.value.Bind? && s.task.value.bind.BindBound?
    case Keep(l) =>
      && s.task.Some? && s.task.value.Bind? && s.task.value.bind.BindListening? && s.socketAt.Some?
      && l !in s.leases
    case RemoveLock =>
      && s.task.Some?
      && (match s.task.value
         case Bind(_) => false
         case Sweep(at) => at.SweepSocketGone?
         case Release(id, at) => id in s.leases && at.GiveLock?
         case Elsewhere => false)
    case Fail => s.task.Some? && !s.task.value.Release?
    case AskRelease(l) => l in s.leases
    case TakeRelease(l) => s.task.None? && l in s.leases && s.leases[l].phase == Flagged
    case GiveUpRelease(l) => l in s.leases && s.leases[l].phase == Flagged
    case CloseListener(i) => i in s.live
    case DropLease(l) => l in s.leases
    case Outsider(_) => true
  }

  function Doing(s: State, task: Task): State {
    s.(task := Some(task))
  }

  /** The operation ends: its directory lock goes, and any lock file it still holds. */
  function Ended(s: State): State {
    s.(task := None,
       flock := if TaskLock(s.task).Some? then s.flock - {TaskLock(s.task).value} else s.flock)
  }

  function InPhase(s: State, l: nat, phase: Phase): State
    requires l in s.leases
  {
    s.(leases := s.leases[l := s.leases[l].(phase := phase)])
  }

  function After(s: State, step: Step): State
    requires Enabled(s, step)
  {
    match step
    case TakeBind => Doing(s, Bind(BindTaken))
    case TakeSweep => Doing(s, Sweep(SweepTaken))
    case TakeElsewhere => Doing(s, Elsewhere)
    case OpenLock => Opened(s)
    case Flock =>
      (match s.task.value
       case Bind(at) => Doing(s, Bind(BindFlocked(at.lock))).(flock := s.flock[at.lock := Working])
       case Sweep(at) => Doing(s, Sweep(SweepFlocked(at.lock))).(flock := s.flock[at.lock := Working]))
    case MatchLock => Matched(s)
    case Probe(alive) => Probed(s, alive)
    case RemoveSocket =>
      (match s.task.value
       case Bind(at) => Doing(s, Bind(BindClear(at.lock))).(socketAt := None)
       case Sweep(at) => Doing(s, Sweep(SweepSocketGone(at.held))).(socketAt := None)
       case Release(id, _) => Doing(s, Release(id, GiveLock)).(socketAt := None))
    case BindSocket =>
      Doing(s, Bind(BindBound(s.task.value.bind.lock, s.next))).(socketAt := Some(s.next), next := s.next + 1)
    case Listen =>
      var at := s.task.value.bind;
      Doing(s, Bind(BindListening(at.lock, at.socket))).(live := s.live + {at.socket})
    case Keep(l) =>
      var lock := s.task.value.bind.lock;
      s.(task := None, leases := s.leases[l := Lease(lock, s.socketAt.value, Kept)],
         flock := s.flock[lock := Leased(l)])
    case RemoveLock =>
      (match s.task.value
       case Sweep(_) => Ended(s).(lockAt := None)
       case Release(id, _) => InPhase(Ended(s), id, Finished).(lockAt := None))
    case Fail => Ended(s)
    case AskRelease(l) => if s.leases[l].phase == Kept then InPhase(s, l, Flagged) else s
    case TakeRelease(l) => Doing(InPhase(s, l, Releasing), Release(l, GiveTaken))
    case GiveUpRelease(l) => InPhase(s, l, GaveUp)
    case CloseListener(i) => s.(live := s.live - {i})
    case DropLease(l) =>
      s.(leases := s.leases - {l}, flock := s.flock - {s.leases[l].lock},
         task := if s.task.Some? && s.task.value.Release? && s.task.value.id == l then None else s.task)
    case Outsider(lock) => if lock then s.(lockAt := None) else s.(socketAt := None)
  }

  /** A bind makes the lock file where there is none; a sweep goes on without one. */
  function Opened(s: State): State
    requires Enabled(s, OpenLock)
  {
    match s.task.value
    case Bind(_) =>
      if s.lockAt.Some? then
        Doing(s, Bind(BindOpened(s.lockAt.value)))
      else
        Doing(s, Bind(BindOpened(s.next))).(lockAt := Some(s.next), next := s.next + 1)
    case Sweep(_) =>
      Doing(s, Sweep(if s.lockAt.Some? then SweepOpened(s.lockAt.value) else SweepLocked(None)))
  }

  /** Whether the path still names the lock held: a sweep takes a changed one for a missing one,
      and a release stops there. */
  function Matched(s: State): State
    requires Enabled(s, MatchLock)
  {
    match s.task.value
    case Bind(at) => Doing(s, Bind(BindLocked(at.lock)))
    case Sweep(at) =>
      if s.lockAt == Some(at.lock) then
        Doing(s, Sweep(SweepLocked(Some(at.lock))))
      else
        Doing(s, Sweep(SweepLocked(None))).(flock := s.flock - {at.lock})
    case Release(id, at) =>
      if s.lockAt == Some(s.leases[id].lock) then
        Doing(s, Release(id, GiveMine))
      else
        InPhase(Ended(s), id, Finished)
  }

  /** A bind clears only a socket nothing answers on, a sweep goes on only past one, and a release
      takes only the socket it bound. */
  function Probed(s: State, alive: bool): State
    requires Enabled(s, Probe(alive))
  {
    match s.task.value
    case Bind(at) => Doing(s, Bind(if s.socketAt.Some? && !alive then BindDead(at.lock) else BindClear(at.lock)))
    case Sweep(at) => Doing(s, Sweep(SweepDead(at.held)))
    case Release(id, _) =>
      Doing(s, Release(id, if s.socketAt == Some(s.leases[id].socket) then GiveSocket else GiveLock))
  }

  // ---- What always holds, whatever an outsider removes ---------------------------------------------

  /** A lock file is held by whom the state says: the one operation under way or one lease. */
  predicate Flocks(s: State) {
    && (forall l :: l in s.leases ==> s.leases[l].lock in s.flock && s.flock[s.leases[l].lock] == Leased(l))
    && (TaskLock(s.task).Some? ==> TaskLock(s.task).value in s.flock && s.flock[TaskLock(s.task).value] == Working)
  }

  /** And by nobody else: a lock whose holder is gone is free. */
  predicate Owners(s: State) {
    forall i :: i in s.flock ==>
      match s.flock[i]
      case Working => TaskLock(s.task) == Some(i)
      case Leased(l) => l in s.leases && s.leases[l].lock == i
  }

  predicate Fresh(s: State) {
    && (s.lockAt.Some? ==> s.lockAt.value < s.next)
    && (s.socketAt.Some? ==> s.socketAt.value < s.next)
    && (forall i :: i in s.live ==> i < s.next)
    && (forall l :: l in s.leases ==> s.leases[l].lock < s.next && s.leases[l].socket < s.next)
    && (TaskLock(s.task).Some? ==> TaskLock(s.task).value < s.next)
    && (s.task.Some? && s.task.value.Bind? && s.task.value.bind.BindOpened? ==> s.task.value.bind.lock < s.next)
    && (s.task.Some? && s.task.value.Bind? && s.task.value.bind.BindBound? ==> s.task.value.bind.socket < s.next)
    && (s.task.Some? && s.task.value.Sweep? && s.task.value.sweep.SweepOpened? ==> s.task.value.sweep.lock < s.next)
  }

  /** The lease is being given back by exactly the operation under way. */
  predicate OneGiver(s: State) {
    forall l :: l in s.leases ==>
      (s.leases[l].phase == Releasing <==> s.task.Some? && s.task.value.Release? && s.task.value.id == l)
  }

  predicate TaskExists(s: State) {
    s.task.Some? && s.task.value.Release? ==> s.task.value.id in s.leases
  }

  /** What the operation under way has found is still so, or gone altogether. */
  predicate Found(s: State) {
    s.task.Some? ==>
      match s.task.value
      case Bind(at) => (at.BindDead? ==> s.socketAt.None? || s.socketAt.value !in s.live)
      case Sweep(at) => (at.SweepDead? ==> s.socketAt.None? || s.socketAt.value !in s.live)
      case Release(id, at) =>
        id in s.leases ==>
          && (!at.GiveTaken? ==> s.lockAt in {None, Some(s.leases[id].lock)})
          && (at.GiveSocket? ==> s.socketAt in {None, Some(s.leases[id].socket)})
      case Elsewhere => true
  }

  predicate Base(s: State) {
    Flocks(s) && Owners(s) && Fresh(s) && OneGiver(s) && TaskExists(s) && Found(s)
  }

  /** The steps the operation holding the directory takes itself. */
  predicate OfTask(step: Step) {
    step.OpenLock? || step.Flock? || step.MatchLock? || step.Probe? || step.RemoveSocket? || step.BindSocket?
    || step.Listen? || step.Keep? || step.RemoveLock? || step.Fail?
  }

  lemma KeepsFlocksWhileBinding(s: State, step: Step)
    requires Flocks(s) && Owners(s) && OneGiver(s) && TaskExists(s) && Enabled(s, step)
    requires OfTask(step) && s.task.Some? && s.task.value.Bind?
    ensures Flocks(After(s, step)) && Owners(After(s, step))
  {
  }

  lemma KeepsFlocksWhileSweeping(s: State, step: Step)
    requires Flocks(s) && Owners(s) && OneGiver(s) && TaskExists(s) && Enabled(s, step)
    requires OfTask(step) && s.task.Some? && s.task.value.Sweep?
    ensures Flocks(After(s, step)) && Owners(After(s, step))
  {
  }

  lemma KeepsFlocksWhileReleasing(s: State, step: Step)
    requires Flocks(s) && Owners(s) && OneGiver(s) && TaskExists(s) && Enabled(s, step)
    requires OfTask(step) && !(s.task.Some? && (s.task.value.Bind? || s.task.value.Sweep?))
    ensures Flocks(After(s, step)) && Owners(After(s, step))
  {
  }

  lemma KeepsFlocksOfOthers(s: State, step: Step)
    requires Flocks(s) && Owners(s) && OneGiver(s) && TaskExists(s) && Enabled(s, step)
    requires !OfTask(step)
    ensures Flocks(After(s, step)) && Owners(After(s, step))
  {
  }

  lemma KeepsFreshWhileBinding(s: State, step: Step)
    requires Fresh(s) && Enabled(s, step)
    requires OfTask(step) && s.task.Some? && s.task.value.Bind?
    ensures Fresh(After(s, step))
  {
  }

  lemma KeepsFreshWhileSweeping(s: State, step: Step)
    requires Fresh(s) && Enabled(s, step)
    requires OfTask(step) && s.task.Some? && s.task.value.Sweep?
    ensures Fresh(After(s, step))
  {
  }

  lemma KeepsFreshWhileReleasing(s: State, step: Step)
    requires Fresh(s) && Enabled(s, step)
    requires OfTask(step) && !(s.task.Some? && (s.task.value.Bind? || s.task.value.Sweep?))
    ensures Fresh(After(s, step))
  {
  }

  lemma KeepsFreshStarting(s: State, step: Step)
    requires Fresh(s) && Enabled(s, step)
    requires step.TakeBind? || step.TakeSweep? || step.TakeElsewhere? || step.TakeRelease?
    ensures Fresh(After(s, step))
  {
  }

  lemma KeepsFreshBeside(s: State, step: Step)
    requires Fresh(s) && Enabled(s, step)
    requires step.AskRelease? || step.GiveUpRelease? || step.CloseListener? || step.Outsider?
    ensures Fresh(After(s, step))
  {
  }

  lemma KeepsFreshDropping(s: State, id: nat)
    requires Fresh(s) && Enabled(s, DropLease(id))
    ensures Fresh(After(s, DropLease(id)))
  {
  }

  lemma KeepsFreshOfOthers(s: State, step: Step)
    requires Fresh(s) && Enabled(s, step)
    requires !OfTask(step)
    ensures Fresh(After(s, step))
  {
    hide After, Enabled, Fresh;
    if step.TakeBind? || step.TakeSweep? || step.TakeElsewhere? || step.TakeRelease? {
      KeepsFreshStarting(s, step);
    } else if step.DropLease? {
      KeepsFreshDropping(s, step.id);
    } else {
      KeepsFreshBeside(s, step);
    }
  }

  lemma KeepsFlocks(s: State, step: Step)
    requires Flocks(s) && Owners(s) && OneGiver(s) && TaskExists(s) && Enabled(s, step)
    ensures Flocks(After(s, step)) && Owners(After(s, step))
  {
    hide After, Enabled, Flocks, Owners, OneGiver, TaskExists, OfTask;
    if !OfTask(step) {
      KeepsFlocksOfOthers(s, step);
    } else if s.task.Some? && s.task.value.Bind? {
      KeepsFlocksWhileBinding(s, step);
    } else if s.task.Some? && s.task.value.Sweep? {
      KeepsFlocksWhileSweeping(s, step);
    } else {
      KeepsFlocksWhileReleasing(s, step);
    }
  }

  lemma KeepsFresh(s: State, step: Step)
    requires Fresh(s) && Enabled(s, step)
    ensures Fresh(After(s, step))
  {
    hide After, Enabled, Fresh, OfTask;
    if !OfTask(step) {
      KeepsFreshOfOthers(s, step);
    } else if s.task.Some? && s.task.value.Bind? {
      KeepsFreshWhileBinding(s, step);
    } else if s.task.Some? && s.task.value.Sweep? {
      KeepsFreshWhileSweeping(s, step);
    } else {
      KeepsFreshWhileReleasing(s, step);
    }
  }

  lemma KeepsGiving(s: State, step: Step)
    requires Base(s) && Enabled(s, step)
    ensures OneGiver(After(s, step)) && TaskExists(After(s, step))
  {
  }

  lemma KeepsFound(s: State, step: Step)
    requires Base(s) && Enabled(s, step)
    ensures Found(After(s, step))
  {
  }

  // ---- What holds while nobody outside touches the two names --------------------------------------

  /** The lease is as it was bound: nothing has been unlinked for it yet. */
  predicate Stands(t: Lease) {
    t.phase in {Kept, Flagged, GaveUp}
  }

  /** Every lease not given back is what the two names name. */
  predicate LeasesNamed(s: State) {
    forall l :: l in s.leases ==>
      && (Stands(s.leases[l]) ==> s.lockAt == Some(s.leases[l].lock) && s.socketAt == Some(s.leases[l].socket))
      && (s.leases[l].phase == Releasing ==> s.lockAt == Some(s.leases[l].lock))
  }

  predicate ReleaseNamed(s: State) {
    s.task.Some? && s.task.value.Release? && s.task.value.id in s.leases && !s.task.value.release.GiveLock? ==>
      s.socketAt == Some(s.leases[s.task.value.id].socket)
  }

  /** The lock the operation opened is the one the path names. */
  predicate TaskNamed(s: State) {
    match s.task
    case Some(Bind(at)) =>
      && (!at.BindTaken? ==> s.lockAt == Some(at.lock))
      && (at.BindBound? || at.BindListening? ==> s.socketAt == Some(at.socket))
    case Some(Sweep(SweepOpened(lock))) => s.lockAt == Some(lock)
    case Some(Sweep(SweepFlocked(lock))) => s.lockAt == Some(lock)
    case Some(Sweep(SweepLocked(held))) => s.lockAt == held
    case Some(Sweep(SweepDead(held))) => s.lockAt == held
    case Some(Sweep(SweepSocketGone(held))) => s.lockAt == held
    case _ => true
  }

  predicate Inv(s: State) {
    Base(s) && LeasesNamed(s) && ReleaseNamed(s) && TaskNamed(s)
  }

  lemma KeepsBase(s: State, step: Step)
    requires Base(s) && Enabled(s, step)
    ensures Base(After(s, step))
  {
    hide After, Enabled, Flocks, Owners, Fresh, OneGiver, TaskExists, Found;
    KeepsFlocks(s, step);
    KeepsFresh(s, step);
    KeepsGiving(s, step);
    KeepsFound(s, step);
  }

  lemma KeepsLeasesNamed(s: State, step: Step)
    requires Inv(s) && Enabled(s, step) && !step.Outsider?
    ensures LeasesNamed(After(s, step))
  {
  }

  lemma KeepsReleaseNamed(s: State, step: Step)
    requires Inv(s) && Enabled(s, step) && !step.Outsider?
    ensures ReleaseNamed(After(s, step))
  {
  }

  lemma KeepsTaskNamed(s: State, step: Step)
    requires Inv(s) && Enabled(s, step) && !step.Outsider?
    ensures TaskNamed(After(s, step))
  {
  }

  lemma KeepsInv(s: State, step: Step)
    requires Inv(s) && Enabled(s, step) && !step.Outsider?
    ensures Inv(After(s, step))
  {
    hide After, Enabled, Base, LeasesNamed, ReleaseNamed, TaskNamed;
    KeepsBase(s, step);
    KeepsLeasesNamed(s, step);
    KeepsReleaseNamed(s, step);
    KeepsTaskNamed(s, step);
  }

  // ---- Whole runs -------------------------------------------------------------------------------

  /** Nobody there: the two names may be left from an earlier session. */
  predicate Start(s: State) {
    s.task.None? && s.leases == map[] && s.flock == map[] && Fresh(s)
  }

  ghost predicate Runs(s: State, steps: seq<Step>, last: State)
    decreases |steps|
  {
    if steps == [] then
      last == s
    else
      Enabled(s, steps[0]) && Runs(After(s, steps[0]), steps[1..], last)
  }

  predicate Undisturbed(steps: seq<Step>) {
    forall step :: step in steps ==> !step.Outsider?
  }

  lemma {:induction false} RunKeepsBase(s: State, steps: seq<Step>, last: State)
    requires Base(s) && Runs(s, steps, last)
    ensures Base(last)
    decreases |steps|
  {
    hide After, Enabled, Base;
    if steps != [] {
      KeepsBase(s, steps[0]);
      RunKeepsBase(After(s, steps[0]), steps[1..], last);
    }
  }

  lemma {:induction false} RunKeepsInv(s: State, steps: seq<Step>, last: State)
    requires Inv(s) && Runs(s, steps, last) && Undisturbed(steps)
    ensures Inv(last)
    decreases |steps|
  {
    hide After, Enabled, Inv;
    if steps != [] {
      KeepsInv(s, steps[0]);
      RunKeepsInv(After(s, steps[0]), steps[1..], last);
    }
  }

  lemma StartKeepsInv(s: State)
    requires Start(s)
    ensures Inv(s)
  {
  }

  /** The socket and the lock under `l` are there, named by the path and locked by this lease. */
  predicate Whole(s: State, l: nat) {
    && l in s.leases && s.leases[l].phase == Kept
    && s.lockAt == Some(s.leases[l].lock) && s.socketAt == Some(s.leases[l].socket)
    && s.leases[l].lock in s.flock && s.flock[s.leases[l].lock] == Leased(l)
  }

  lemma KeptIsWhole(s: State, l: nat)
    requires Inv(s) && l in s.leases && s.leases[l].phase == Kept
    ensures Whole(s, l)
  {
  }

  lemma NobodyElse(s: State, l: nat, m: nat)
    requires Inv(s) && l in s.leases && m in s.leases && Stands(s.leases[l]) && l != m
    ensures s.leases[m].phase == Finished && s.lockAt != Some(s.leases[m].lock)
  {
  }

  /** In every reachable state a lease not given back is whole, and no other lease holds the lock
      the path names. */
  lemma EveryLeaseIsWhole(s: State, steps: seq<Step>, last: State, l: nat)
    requires Start(s) && Runs(s, steps, last) && Undisturbed(steps)
    requires l in last.leases && last.leases[l].phase == Kept
    ensures Whole(last, l)
    ensures forall m :: m in last.leases && m != l ==>
              last.leases[m].phase == Finished && last.lockAt != Some(last.leases[m].lock)
  {
    hide Inv, Start, Runs, Undisturbed, Whole;
    StartKeepsInv(s);
    RunKeepsInv(s, steps, last);
    KeptIsWhole(last, l);
    forall m | m in last.leases && m != l
      ensures last.leases[m].phase == Finished && last.lockAt != Some(last.leases[m].lock)
    {
      NobodyElse(last, l, m);
    }
  }

  lemma OneStepLeavesIt(s: State, step: Step, l: nat)
    requires Inv(s) && Enabled(s, step) && l in s.leases && s.leases[l].phase == Kept
    requires step != AskRelease(l) && step != DropLease(l)
    ensures l in After(s, step).leases && After(s, step).leases[l] == s.leases[l]
  {
  }

  /** Whatever else goes on, binds, sweeps, releases, deaths and closed listeners, a lease stays
      whole with the same two inodes until its own holder gives it back or drops it. */
  lemma {:induction false} OthersLeaveALease(s: State, steps: seq<Step>, last: State, l: nat)
    requires Inv(s) && Runs(s, steps, last) && Undisturbed(steps)
    requires l in s.leases && s.leases[l].phase == Kept
    requires AskRelease(l) !in steps && DropLease(l) !in steps
    ensures Whole(last, l) && last.leases[l] == s.leases[l]
    decreases |steps|
  {
    hide Inv, After, Enabled, Whole;
    if steps == [] {
      KeptIsWhole(s, l);
    } else {
      KeepsInv(s, steps[0]);
      OneStepLeavesIt(s, steps[0], l);
      OthersLeaveALease(After(s, steps[0]), steps[1..], last, l);
    }
  }

  // ---- What a release, a sweep and a bind may take down --------------------------------------------

  lemma GivingTakesItsOwn(s: State, step: Step)
    requires Base(s) && Enabled(s, step) && s.task.Some? && s.task.value.Release? && !step.Outsider?
    ensures s.task.value.id in s.leases
    ensures After(s, step).socketAt == s.socketAt
            || (After(s, step).socketAt.None? && s.socketAt == Some(s.leases[s.task.value.id].socket))
    ensures After(s, step).lockAt == s.lockAt
            || (After(s, step).lockAt.None? && s.lockAt == Some(s.leases[s.task.value.id].lock))
  {
  }

  /** Even where an outsider removes the lock or the socket under it, at any point: a release
      takes down the inodes of its own lease and no others. */
  lemma ReleaseTakesItsOwn(s: State, steps: seq<Step>, mid: State, step: Step)
    requires Start(s) && Runs(s, steps, mid) && Enabled(mid, step)
    requires mid.task.Some? && mid.task.value.Release? && !step.Outsider?
    ensures mid.task.value.id in mid.leases
    ensures var own := mid.leases[mid.task.value.id]; var next := After(mid, step);
            && (next.socketAt != mid.socketAt ==> mid.socketAt == Some(own.socket))
            && (next.lockAt != mid.lockAt ==> mid.lockAt == Some(own.lock))
  {
    hide Start, Runs, After, Enabled, Base, Inv;
    StartKeepsInv(s);
    InvIsBase(s);
    RunKeepsBase(s, steps, mid);
    GivingTakesItsOwn(mid, step);
  }

  lemma InvIsBase(s: State)
    requires Inv(s)
    ensures Base(s)
  {
  }

  function Rank(phase: Phase): nat {
    match phase
    case Kept => 0
    case Flagged => 1
    case GaveUp => 3
    case Releasing => 2
    case Finished => 3
  }

  lemma PhasesGoOnward(s: State, step: Step, l: nat)
    requires Base(s) && Enabled(s, step) && l in s.leases && l in After(s, step).leases
    ensures Rank(s.leases[l].phase) <= Rank(After(s, step).leases[l].phase)
    ensures s.task.Some? && s.task.value == Release(l, GiveTaken) ==> s.leases[l].phase == Releasing
    ensures step == TakeRelease(l) ==> s.leases[l].phase == Flagged && After(s, step).leases[l].phase == Releasing
  {
  }

  /** A release asked for again does nothing, and one lease never goes to work twice: from a lease
      already being given back on, no run takes the directory for it again. */
  lemma {:induction false} ReleasedOnce(s: State, steps: seq<Step>, last: State, l: nat)
    requires Base(s) && Runs(s, steps, last) && l in s.leases && Rank(s.leases[l].phase) >= 2
    requires DropLease(l) !in steps
    ensures TakeRelease(l) !in steps
    ensures l in last.leases && Rank(last.leases[l].phase) >= 2
    ensures Enabled(last, AskRelease(l)) && After(last, AskRelease(l)) == last
    decreases |steps|
  {
    hide Base;
    if steps != [] {
      KeepsBase(s, steps[0]);
      PhasesGoOnward(s, steps[0], l);
      ReleasedOnce(After(s, steps[0]), steps[1..], last, l);
      assert steps == [steps[0]] + steps[1..];
    }
  }

  /** No bind and no sweep unlinks a socket anything answers on. */
  lemma NothingLiveIsUnlinked(s: State, steps: seq<Step>, mid: State, step: Step)
    requires Start(s) && Runs(s, steps, mid) && Enabled(mid, step) && !step.Outsider?
    requires !(mid.task.Some? && mid.task.value.Release?)
    requires mid.socketAt.Some? && After(mid, step).socketAt != mid.socketAt
    ensures mid.socketAt.value !in mid.live
  {
    hide Start, Runs, Inv, Flocks, Fresh, OneGiver, TaskExists;
    StartKeepsInv(s);
    InvIsBase(s);
    RunKeepsBase(s, steps, mid);
  }

  /** While a lease stands nobody else gets the path: no bind comes through its lock. */
  lemma LeaseShutsOut(s: State, l: nat, step: Step)
    requires Inv(s) && Enabled(s, step) && l in s.leases && Stands(s.leases[l])
    ensures TaskLock(s.task).None? && !step.Keep? && step != Flock
  {
  }

  /** The steps of a bind nothing gets in the way of. */
  function Binds(id: nat, dead: bool): seq<Step> {
    [TakeBind, OpenLock, Flock, MatchLock, Probe(false)] + (if dead then [RemoveSocket] else [])
    + [BindSocket, Listen, Keep(id)]
  }

  lemma RunsFirst(s: State, step: Step, steps: seq<Step>, last: State)
    requires Enabled(s, step) && Runs(After(s, step), steps, last)
    ensures Runs(s, [step] + steps, last)
  {
    hide After, Enabled;
    assert ([step] + steps)[1..] == steps;
  }

  lemma {:induction false} RunsOn(s: State, steps: seq<Step>, mid: State, more: seq<Step>, last: State)
    requires Runs(s, steps, mid) && Runs(mid, more, last)
    ensures Runs(s, steps + more, last)
    decreases |steps|
  {
    hide After, Enabled;
    if steps == [] {
      assert steps + more == more;
    } else {
      RunsOn(After(s, steps[0]), steps[1..], mid, more, last);
      assert (steps + more)[1..] == steps[1..] + more;
    }
  }

  lemma BindOpens(s: State) returns (last: State)
    requires Inv(s) && s.task.None? && s.leases == map[]
    ensures Runs(s, [TakeBind, OpenLock], last) && last.task.Some? && last.task.value.Bind?
    ensures last.task.value.bind.BindOpened? && last.lockAt == Some(last.task.value.bind.lock) && last.flock == map[]
    ensures last.leases == map[] && last.socketAt == s.socketAt && last.live == s.live
  {
    var one := After(s, TakeBind);
    last := After(one, OpenLock);
    assert s.flock == map[];
    RunsFirst(one, OpenLock, [], last);
    RunsFirst(s, TakeBind, [OpenLock] + [], last);
    assert [TakeBind] + ([OpenLock] + []) == [TakeBind, OpenLock];
  }

  lemma BindLocks(s: State) returns (last: State)
    requires s.task.Some? && s.task.value.Bind? && s.task.value.bind.BindOpened?
    requires s.lockAt == Some(s.task.value.bind.lock) && s.flock == map[] && s.leases == map[]
    ensures Runs(s, [Flock, MatchLock], last) && last.task.Some? && last.task.value.Bind?
    ensures last.task.value.bind.BindLocked? && last.leases == map[] && last.socketAt == s.socketAt && last.live == s.live
  {
    var one := After(s, Flock);
    last := After(one, MatchLock);
    RunsFirst(one, MatchLock, [], last);
    RunsFirst(s, Flock, [MatchLock] + [], last);
    assert [Flock] + ([MatchLock] + []) == [Flock, MatchLock];
  }

  lemma BindClears(s: State) returns (last: State)
    requires s.task.Some? && s.task.value.Bind? && s.task.value.bind.BindLocked? && s.leases == map[]
    requires s.socketAt.Some? ==> s.socketAt.value !in s.live
    ensures Runs(s, [Probe(false)] + (if s.socketAt.Some? then [RemoveSocket] else []), last)
    ensures last.task.Some? && last.task.value.Bind? && last.task.value.bind.BindClear?
    ensures last.socketAt.None? && last.leases == map[]
  {
    var one := After(s, Probe(false));
    if s.socketAt.Some? {
      last := After(one, RemoveSocket);
      RunsFirst(one, RemoveSocket, [], last);
      RunsFirst(s, Probe(false), [RemoveSocket] + [], last);
      assert [Probe(false)] + ([RemoveSocket] + []) == [Probe(false)] + [RemoveSocket];
    } else {
      last := one;
      RunsFirst(s, Probe(false), [], last);
    }
  }

  lemma BindingEnds(s: State, id: nat) returns (last: State)
    requires s.task.Some? && s.task.value.Bind? && s.task.value.bind.BindClear?
    requires s.socketAt.None? && id !in s.leases
    ensures Runs(s, [BindSocket, Listen, Keep(id)], last)
    ensures id in last.leases && last.leases[id].phase == Kept && last.socketAt.Some? && last.socketAt.value in last.live
  {
    var one := After(s, BindSocket);
    var two := After(one, Listen);
    last := After(two, Keep(id));
    assert Runs(last, [], last);
    RunsFirst(two, Keep(id), [], last);
    RunsFirst(one, Listen, [Keep(id)] + [], last);
    RunsFirst(s, BindSocket, [Listen] + ([Keep(id)] + []), last);
    assert [BindSocket] + ([Listen] + ([Keep(id)] + [])) == [BindSocket, Listen, Keep(id)];
  }

  /** A session that died without giving its path back keeps nobody out: its lock went with it, its
      socket answers nobody, and the next bind clears it and comes up listening. */
  lemma BindAfterADeath(s: State, id: nat) returns (last: State)
    requires Inv(s) && s.task.None? && s.leases == map[] && (s.socketAt.Some? ==> s.socketAt.value !in s.live)
    ensures Runs(s, Binds(id, s.socketAt.Some?), last)
    ensures id in last.leases && last.leases[id].phase == Kept && last.socketAt.Some? && last.socketAt.value in last.live
  {
    hide Runs, Inv, After, Enabled;
    var one := BindOpens(s);
    var two := BindLocks(one);
    var three := BindClears(two);
    last := BindingEnds(three, id);
    var clears := [Probe(false)] + (if s.socketAt.Some? then [RemoveSocket] else []);
    RunsOn(two, clears, three, [BindSocket, Listen, Keep(id)], last);
    RunsOn(one, [Flock, MatchLock], two, clears + [BindSocket, Listen, Keep(id)], last);
    RunsOn(s, [TakeBind, OpenLock], one, [Flock, MatchLock] + (clears + [BindSocket, Listen, Keep(id)]), last);
    assert [TakeBind, OpenLock] + ([Flock, MatchLock] + (clears + [BindSocket, Listen, Keep(id)]))
        == Binds(id, s.socketAt.Some?);
  }

  // ---- What a release and a sweep have taken down when they are done -----------------------------------

  /** The lock of a lease given back is not what the path names any more, ... */
  predicate LocksGone(s: State) {
    forall l :: l in s.leases && s.leases[l].phase == Finished ==> s.lockAt != Some(s.leases[l].lock)
  }

  /** ... nor is its socket. */
  predicate SocketsGone(s: State) {
    && (forall l :: l in s.leases && s.leases[l].phase == Finished ==> s.socketAt != Some(s.leases[l].socket))
    && (s.task.Some? && s.task.value.Release? && s.task.value.release.GiveLock? && s.task.value.id in s.leases ==>
          s.socketAt != Some(s.leases[s.task.value.id].socket))
  }

  /** A binding opens only a lock that is named, or a new one. */
  lemma KeepsLocksGone(s: State, step: Step)
    requires Base(s) && LocksGone(s) && Enabled(s, step)
    ensures LocksGone(After(s, step))
  {
    hide Flocks, Owners, Found, TaskLock;
  }

  lemma KeepsSocketsGone(s: State, step: Step)
    requires Inv(s) && SocketsGone(s) && Enabled(s, step) && !step.Outsider?
    ensures SocketsGone(After(s, step))
  {
    hide Flocks, Owners, Found, TaskLock;
  }

  lemma {:induction false} RunKeepsLocksGone(s: State, steps: seq<Step>, last: State)
    requires Base(s) && LocksGone(s) && Runs(s, steps, last)
    ensures LocksGone(last)
    decreases |steps|
  {
    hide After, Enabled, Base, LocksGone;
    if steps != [] {
      KeepsBase(s, steps[0]);
      KeepsLocksGone(s, steps[0]);
      RunKeepsLocksGone(After(s, steps[0]), steps[1..], last);
    }
  }

  lemma {:induction false} RunKeepsSocketsGone(s: State, steps: seq<Step>, last: State)
    requires Inv(s) && SocketsGone(s) && Runs(s, steps, last) && Undisturbed(steps)
    ensures SocketsGone(last)
    decreases |steps|
  {
    hide After, Enabled, Inv, SocketsGone;
    if steps != [] {
      KeepsInv(s, steps[0]);
      KeepsSocketsGone(s, steps[0]);
      RunKeepsSocketsGone(After(s, steps[0]), steps[1..], last);
    }
  }

  /** When a release is done the path names neither of the two inodes of its lease, and never again; the
      lock is not named even where an outsider got in the way. */
  lemma ReleaseLeavesNothing(s: State, steps: seq<Step>, last: State, l: nat)
    requires Start(s) && Runs(s, steps, last) && l in last.leases && last.leases[l].phase == Finished
    ensures last.lockAt != Some(last.leases[l].lock)
    ensures Undisturbed(steps) ==> last.socketAt != Some(last.leases[l].socket)
  {
    hide Runs, Undisturbed, Base;
    StartKeepsInv(s);
    InvIsBase(s);
    RunKeepsLocksGone(s, steps, last);
    if Undisturbed(steps) {
      RunKeepsSocketsGone(s, steps, last);
    }
  }

  lemma {:induction false} Goes(s: State, steps: seq<Step>, mid: State, step: Step)
    requires Runs(s, steps, mid) && Enabled(mid, step)
    ensures Runs(s, steps + [step], After(mid, step))
    decreases |steps|
  {
    hide After, Enabled;
    if steps == [] {
      assert Runs(After(mid, step), [], After(mid, step));
    } else {
      Goes(After(s, steps[0]), steps[1..], mid, step);
      assert (steps + [step])[1..] == steps[1..] + [step];
    }
  }

  lemma RunsNowhere(s: State)
    ensures Runs(s, [], s)
  {
  }

  lemma ReleaseTaken(s: State, l: nat) returns (steps: seq<Step>, last: State)
    requires s.task.None? && l in s.leases && s.leases[l].phase == Kept
    ensures steps == [AskRelease(l), TakeRelease(l)] && Runs(s, steps, last)
    ensures last == s.(leases := s.leases[l := s.leases[l].(phase := Releasing)], task := Some(Release(l, GiveTaken)))
  {
    hide Runs;
    RunsNowhere(s);
    Goes(s, [], s, AskRelease(l));
    steps, last := [] + [AskRelease(l)], After(s, AskRelease(l));
    Goes(s, steps, last, TakeRelease(l));
    steps, last := steps + [TakeRelease(l)], After(last, TakeRelease(l));
    assert last.leases == s.leases[l := s.leases[l].(phase := Releasing)];
  }

  lemma ReleaseGives(s: State, l: nat) returns (steps: seq<Step>, last: State)
    requires s.task == Some(Release(l, GiveTaken)) && l in s.leases
    requires s.lockAt == Some(s.leases[l].lock) && s.socketAt == Some(s.leases[l].socket)
    ensures steps == [MatchLock, Probe(true), RemoveSocket, RemoveLock] && Runs(s, steps, last)
    ensures last == s.(leases := s.leases[l := s.leases[l].(phase := Finished)], task := None, lockAt := None,
                       socketAt := None)
  {
    hide Runs;
    RunsNowhere(s);
    Goes(s, [], s, MatchLock);
    steps, last := [] + [MatchLock], After(s, MatchLock);
    Goes(s, steps, last, Probe(true));
    steps, last := steps + [Probe(true)], After(last, Probe(true));
    Goes(s, steps, last, RemoveSocket);
    steps, last := steps + [RemoveSocket], After(last, RemoveSocket);
    Goes(s, steps, last, RemoveLock);
    steps, last := steps + [RemoveLock], After(last, RemoveLock);
  }

  /** From any lease that stands a release can run to its end, and leaves both names free. */
  lemma ReleaseRuns(s: State, l: nat) returns (steps: seq<Step>, last: State)
    requires Inv(s) && s.task.None? && l in s.leases && s.leases[l].phase == Kept
    ensures steps == [AskRelease(l), TakeRelease(l), MatchLock, Probe(true), RemoveSocket, RemoveLock]
    ensures Runs(s, steps, last)
    ensures last == s.(leases := s.leases[l := s.leases[l].(phase := Finished)], lockAt := None, socketAt := None)
  {
    hide Runs, Base, ReleaseNamed, TaskNamed, After, Enabled;
    var first, mid := ReleaseTaken(s, l);
    var rest;
    rest, last := ReleaseGives(mid, l);
    RunsOn(s, first, mid, rest, last);
    steps := first + rest;
    assert last.leases == s.leases[l := s.leases[l].(phase := Finished)];
  }

  /** A sweep that holds the lock it opened goes on to its end past a socket nothing answers on, also
      where an outsider has taken the lock down meanwhile. */
  lemma SweepGoesOn(s: State, lock: Inode) returns (steps: seq<Step>, last: State)
    requires s.task == Some(Sweep(SweepFlocked(lock))) && (s.socketAt.Some? ==> s.socketAt.value !in s.live)
    ensures steps == [MatchLock, Probe(false), RemoveSocket, RemoveLock] && Runs(s, steps, last)
    ensures last == s.(task := None, flock := s.flock - {lock}, lockAt := None, socketAt := None)
  {
    hide Runs;
    RunsNowhere(s);
    Goes(s, [], s, MatchLock);
    steps, last := [] + [MatchLock], After(s, MatchLock);
    Goes(s, steps, last, Probe(false));
    steps, last := steps + [Probe(false)], After(last, Probe(false));
    Goes(s, steps, last, RemoveSocket);
    steps, last := steps + [RemoveSocket], After(last, RemoveSocket);
    Goes(s, steps, last, RemoveLock);
    steps, last := steps + [RemoveLock], After(last, RemoveLock);
  }

  lemma SweepLocks(s: State, lock: Inode) returns (steps: seq<Step>, last: State)
    requires s.task.None? && s.lockAt == Some(lock) && lock !in s.flock
    ensures steps == [TakeSweep, OpenLock, Flock] && Runs(s, steps, last)
    ensures last == s.(task := Some(Sweep(SweepFlocked(lock))), flock := s.flock[lock := Working])
  {
    hide Runs;
    RunsNowhere(s);
    Goes(s, [], s, TakeSweep);
    steps, last := [] + [TakeSweep], After(s, TakeSweep);
    Goes(s, steps, last, OpenLock);
    steps, last := steps + [OpenLock], After(last, OpenLock);
    Goes(s, steps, last, Flock);
    steps, last := steps + [Flock], After(last, Flock);
  }

  lemma SweepUnlocked(s: State) returns (steps: seq<Step>, last: State)
    requires s.task.None? && s.lockAt.None? && (s.socketAt.Some? ==> s.socketAt.value !in s.live)
    ensures steps == [TakeSweep, OpenLock, Probe(false), RemoveSocket, RemoveLock] && Runs(s, steps, last)
    ensures last == s.(socketAt := None)
  {
    hide Runs;
    RunsNowhere(s);
    Goes(s, [], s, TakeSweep);
    steps, last := [] + [TakeSweep], After(s, TakeSweep);
    Goes(s, steps, last, OpenLock);
    steps, last := steps + [OpenLock], After(last, OpenLock);
    Goes(s, steps, last, Probe(false));
    steps, last := steps + [Probe(false)], After(last, Probe(false));
    Goes(s, steps, last, RemoveSocket);
    steps, last := steps + [RemoveSocket], After(last, RemoveSocket);
    Goes(s, steps, last, RemoveLock);
    steps, last := steps + [RemoveLock], After(last, RemoveLock);
  }

  /** And a sweep of a path nobody holds, whose socket answers nobody, can run to its end, whether or not
      the lock is still there; all it leaves changed is that the two names are free. */
  lemma SweepRuns(s: State) returns (steps: seq<Step>, last: State)
    requires Inv(s) && s.task.None? && s.leases == map[] && (s.socketAt.Some? ==> s.socketAt.value !in s.live)
    ensures steps == (if s.lockAt.Some? then [TakeSweep, OpenLock, Flock, MatchLock] else [TakeSweep, OpenLock])
                     + [Probe(false), RemoveSocket, RemoveLock]
    ensures Runs(s, steps, last)
    ensures last == s.(lockAt := None, socketAt := None)
  {
    hide Runs, Inv, After, Enabled;
    NobodyLocks(s);
    if s.lockAt.Some? {
      var first, mid := SweepLocks(s, s.lockAt.value);
      var rest;
      rest, last := SweepGoesOn(mid, s.lockAt.value);
      RunsOn(s, first, mid, rest, last);
      steps := first + rest;
      assert mid.flock - {s.lockAt.value} == s.flock;
    } else {
      steps, last := SweepUnlocked(s);
    }
  }

  lemma NobodyLocks(s: State)
    requires Inv(s) && s.task.None? && s.leases == map[]
    ensures s.flock == map[]
  {
    hide Fresh, Found, ReleaseNamed, TaskNamed, Flocks, OneGiver;
  }

  lemma Dies(s: State, l: nat) returns (steps: seq<Step>, last: State)
    requires l in s.leases && s.leases.Keys == {l} && s.task.None? && s.leases[l].socket in s.live
    ensures steps == [CloseListener(s.leases[l].socket), DropLease(l)] && Runs(s, steps, last)
    ensures last.task.None? && last.leases == map[] && last.socketAt == s.socketAt
    ensures last.live == s.live - {s.leases[l].socket}
  {
    hide Runs;
    var socket := s.leases[l].socket;
    RunsNowhere(s);
    Goes(s, [], s, CloseListener(socket));
    steps, last := [] + [CloseListener(socket)], After(s, CloseListener(socket));
    Goes(s, steps, last, DropLease(l));
    steps, last := steps + [DropLease(l)], After(last, DropLease(l));
    assert last.leases.Keys == {};
  }

  /** A session dies holding its path: its listener closes, its locks go with it, and the next session
      binds the path, clearing what it left. */
  lemma DeathThenBind(s: State, l: nat, id: nat) returns (steps: seq<Step>, last: State)
    requires Inv(s) && s.task.None? && l in s.leases && s.leases.Keys == {l} && s.leases[l].phase == Kept
    requires s.leases[l].socket in s.live
    ensures steps == [CloseListener(s.leases[l].socket), DropLease(l)] + Binds(id, true) && Runs(s, steps, last)
    ensures id in last.leases && last.leases[id].phase == Kept && last.socketAt.Some? && last.socketAt.value in last.live
  {
    hide Runs, After, Enabled, Inv, Binds, Undisturbed;
    KeptIsWhole(s, l);
    var first, mid := Dies(s, l);
    Untouched(s.leases[l].socket, l);
    RunKeepsInv(s, first, mid);
    last := BindAfterADeath(mid, id);
    RunsOn(s, first, mid, Binds(id, true), last);
    steps := first + Binds(id, true);
  }

  lemma Untouched(socket: Inode, l: nat)
    ensures Undisturbed([CloseListener(socket), DropLease(l)])
  {
  }

  /** A bind whose lock an outsider has taken down meanwhile, or that another has replaced, goes no further:
      all it can do is fail, which lets its lock go. */
  lemma ChangedLockStopsABind(s: State, lock: Inode, step: Step)
    requires s.task == Some(Bind(BindFlocked(lock))) && s.lockAt != Some(lock) && Enabled(s, step) && OfTask(step)
    ensures step == Fail && After(s, step).task.None? && lock !in After(s, step).flock
    ensures After(s, step).lockAt == s.lockAt && After(s, step).socketAt == s.socketAt
  {
  }
}
