/** All the asks of one run on its ledger: a file replaced under a lock by writing beside it and
    renaming, every system call a step of its own. Asks start, charge, fail and die at any point, and
    the ledger, its lock and the file beside it can be taken down at any point, which nothing
    locks: the session that began the run does so when it ends, whoever of the run is still asking. */
module RunLedger {
  import opened Options
  import opened Decimal
  import opened Sums
  import opened Spending

  type Inode = nat

  /** How far a replacement has got: the lock opened, held, the ledger read, the file beside it opened
      and emptied, written, renamed. */
  datatype At =
    | Idle
    | Wanting(now: nat)
    | Opened(now: nat, lock: Inode)
    | Holding(now: nat, lock: Inode)
    | Seen(now: nat, lock: Inode, current: nat)
    | Writing(now: nat, lock: Inode, current: nat, beside: Inode)
    | Ready(now: nat, lock: Inode, current: nat, beside: Inode)
    | Wrote(now: nat, lock: Inode)

  /** One ask alive: what its meter has as charged, and where it is. */
  datatype Ask = Ask(charged: nat, at: At)

  /** `owed` is what each ask, dead ones included, last had put into the ledger; `lock`, `file` and
      `next` are what the three names name. */
  datatype State = State(asks: map<nat, Ask>, owed: map<nat, nat>, flock: map<Inode, nat>,
                         lock: Option<Inode>, file: Option<Inode>, next: Option<Inode>,
                         text: map<Inode, string>, count: Inode)

  datatype Step =
    | Start(a: nat)
    | Hear(a: nat, now: nat)
    | OpenLock(a: nat)
    | TakeLock(a: nat)
    | Read(a: nat)
    | OpenNext(a: nat)
    | WriteNext(a: nat)
    | Rename(a: nat)
    | Unlock(a: nat)
    | GiveUp(a: nat)
    | Die(a: nat)
    | CloseFile
    | CloseLock
    | CloseNext

  function TextOf(s: State, inode: Option<Inode>): Option<string> {
    if inode.Some? && inode.value in s.text then Some(s.text[inode.value]) else None
  }

  /** What the ledger says to whoever reads it now. */
  function Told(s: State): Result<nat, Fault> {
    Total(TextOf(s, s.file))
  }

  predicate Enabled(s: State, step: Step) {
    match step
    case Start(a) => a !in s.owed
    case Hear(a, now) => a in s.asks && s.asks[a].at.Idle? && now != s.asks[a].charged && now <= U64_MAX
    case OpenLock(a) => a in s.asks && s.asks[a].at.Wanting?
    case TakeLock(a) => a in s.asks && s.asks[a].at.Opened? && s.asks[a].at.lock !in s.flock
    case Read(a) => a in s.asks && s.asks[a].at.Holding? && Told(s).Ok?
    case OpenNext(a) =>
      && a in s.asks && s.asks[a].at.Seen?
      && Replaced(s.asks[a].at.current, s.asks[a].charged, s.asks[a].at.now).Ok?
    case WriteNext(a) =>
      && a in s.asks && s.asks[a].at.Writing? && s.asks[a].at.beside in s.text
      && Replaced(s.asks[a].at.current, s.asks[a].charged, s.asks[a].at.now).Ok?
    case Rename(a) => a in s.asks && s.asks[a].at.Ready? && s.next.Some?
    case Unlock(a) => a in s.asks && s.asks[a].at.Wrote?
    case GiveUp(a) => a in s.asks && !s.asks[a].at.Idle? && !s.asks[a].at.Wrote?
    case Die(a) => a in s.asks
    case CloseFile => true
    case CloseLock => true
    case CloseNext => true
  }

  function Now(s: State, a: nat, at: At): State
    requires a in s.asks
  {
    s.(asks := s.asks[a := s.asks[a].(at := at)])
  }

  predicate Holds(at: At) {
    at.Holding? || at.Seen? || at.Writing? || at.Ready? || at.Wrote?
  }

  /** The lock goes with whoever held it. */
  function Unheld(s: State, a: nat): map<Inode, nat>
    requires a in s.asks
  {
    if Holds(s.asks[a].at) then s.flock - {s.asks[a].at.lock} else s.flock
  }

  /** Written from the start of the file, over whatever somebody else has put there. */
  function Over(was: string, line: string): string {
    line + if |line| < |was| then was[|line|..] else ""
  }

  function After(s: State, step: Step): State
    requires Enabled(s, step)
  {
    match step
    case Start(a) => s.(asks := s.asks[a := Ask(0, Idle)], owed := s.owed[a := 0])
    case Hear(a, now) => Now(s, a, Wanting(now))
    case OpenLock(a) =>
      var now := s.asks[a].at.now;
      if s.lock.Some? then
        Now(s, a, Opened(now, s.lock.value))
      else
        Now(s, a, Opened(now, s.count)).(lock := Some(s.count), count := s.count + 1)
    case TakeLock(a) =>
      var at := s.asks[a].at;
      Now(s, a, Holding(at.now, at.lock)).(flock := s.flock[at.lock := a])
    case Read(a) => Now(s, a, Seen(s.asks[a].at.now, s.asks[a].at.lock, Told(s).value))
    case OpenNext(a) =>
      var at := s.asks[a].at;
      var i := if s.next.Some? then s.next.value else s.count;
      Now(s, a, Writing(at.now, at.lock, at.current, i)).(
        next := Some(i), text := s.text[i := ""], count := if s.next.Some? then s.count else s.count + 1)
    case WriteNext(a) =>
      var at := s.asks[a].at;
      var line := Line(Replaced(at.current, s.asks[a].charged, at.now).value);
      Now(s, a, Ready(at.now, at.lock, at.current, at.beside)).(
        text := s.text[at.beside := Over(s.text[at.beside], line)])
    case Rename(a) =>
      Now(s, a, Wrote(s.asks[a].at.now, s.asks[a].at.lock)).(
        file := s.next, next := None, owed := s.owed[a := s.asks[a].at.now])
    case Unlock(a) => s.(asks := s.asks[a := Ask(s.asks[a].at.now, Idle)], flock := Unheld(s, a))
    case GiveUp(a) => Now(s, a, Idle).(flock := Unheld(s, a))
    case Die(a) => s.(asks := s.asks - {a}, flock := Unheld(s, a))
    case CloseFile => s.(file := None)
    case CloseLock => s.(lock := None)
    case CloseNext => s.(next := None)
  }

  function Begun(): State {
    State(map[], map[], map[], None, None, None, map[], 0)
  }

  // ---- What holds whatever is taken down ---------------------------------------------------------

  /** The number a replacement is to come to is one of 64 bits. */
  predicate Small(s: State) {
    && (forall a :: a in s.owed ==> s.owed[a] <= U64_MAX)
    && (forall a :: a in s.asks && !s.asks[a].at.Idle? ==> s.asks[a].at.now <= U64_MAX)
  }

  /** What a meter has as charged is what was last put in for it, but between the rename and the
      assignment that follows it. */
  predicate Charged(s: State) {
    forall a :: a in s.asks ==>
      && a in s.owed
      && s.owed[a] == if s.asks[a].at.Wrote? then s.asks[a].at.now else s.asks[a].charged
  }

  predicate AtWork(at: At) {
    at.Writing? || at.Ready?
  }

  /** One ask at the most has the file beside the ledger open, ... */
  predicate Alone(s: State) {
    forall a, b :: a in s.asks && b in s.asks && AtWork(s.asks[a].at) && AtWork(s.asks[b].at) ==> a == b
  }

  /** ... which is its own or is named by nothing, and holds what it wrote. */
  predicate Own(s: State) {
    forall a :: a in s.asks && AtWork(s.asks[a].at) ==>
      var at := s.asks[a].at;
      && at.beside in s.text && s.next in {None, Some(at.beside)} && s.file != Some(at.beside)
      && Replaced(at.current, s.asks[a].charged, at.now).Ok?
      && s.text[at.beside] == if at.Writing? then "" else Line(Replaced(at.current, s.asks[a].charged, at.now).value)
  }

  predicate Named(s: State) {
    && (s.file.Some? ==> s.file.value in s.text)
    && (s.next.Some? ==> s.next.value in s.text && s.next != s.file)
    && (forall i :: i in s.text ==> i < s.count)
  }

  predicate Readable(s: State) {
    && Told(s).Ok? && Told(s).value <= U64_MAX
    && forall a :: a in s.asks && (s.asks[a].at.Seen? || AtWork(s.asks[a].at)) ==> s.asks[a].at.current <= U64_MAX
  }

  predicate Whole(s: State) {
    Small(s) && Charged(s) && Alone(s) && Own(s) && Named(s) && Readable(s)
  }

  /** An ask opens the file beside the ledger while another has it open. */
  predicate Shares(s: State, step: Step) {
    step.OpenNext? && exists b :: b in s.asks && b != step.a && AtWork(s.asks[b].at)
  }

  lemma KeepsSmall(s: State, step: Step)
    requires Small(s) && Enabled(s, step)
    ensures Small(After(s, step))
  {
    hide Told, Replaced, Line, Over;
  }

  lemma KeepsCharged(s: State, step: Step)
    requires Charged(s) && Enabled(s, step)
    ensures Charged(After(s, step))
  {
    hide Told, Replaced, Line, Over;
  }

  lemma KeepsAlone(s: State, step: Step)
    requires Alone(s) && Enabled(s, step) && !Shares(s, step)
    ensures Alone(After(s, step))
  {
    hide Told, Replaced, Line, Over;
  }

  lemma KeepsNamed(s: State, step: Step)
    requires Named(s) && Own(s) && Enabled(s, step)
    ensures Named(After(s, step))
  {
    hide Told, Replaced, Line, Over;
  }

  lemma KeepsOwn(s: State, step: Step)
    requires Own(s) && Alone(s) && Named(s) && Enabled(s, step) && !Shares(s, step)
    ensures Own(After(s, step))
  {
    hide Told, Replaced, Line;
  }

  /** What a rename leaves in the ledger is what it is meant to. */
  lemma Renamed(s: State, a: nat)
    requires Whole(s) && Enabled(s, Rename(a))
    ensures var at := s.asks[a].at;
            && Replaced(at.current, s.asks[a].charged, at.now).Ok?
            && Told(After(s, Rename(a))) == Replaced(at.current, s.asks[a].charged, at.now)
  {
    hide Total, Line;
    LineReadsBack(Replaced(s.asks[a].at.current, s.asks[a].charged, s.asks[a].at.now).value);
  }

  lemma ToldOtherwise(s: State, step: Step)
    requires Own(s) && Named(s) && Enabled(s, step) && !step.Rename? && !step.CloseFile?
    ensures Told(After(s, step)) == Told(s)
  {
    hide Total, Replaced, Line, Over;
  }

  lemma ToldOfNothing(s: State)
    requires s.file == None
    ensures Told(s) == Ok(0)
  {
  }

  lemma KeepsReadable(s: State, step: Step)
    requires Whole(s) && Enabled(s, step)
    ensures Readable(After(s, step))
  {
    hide Total, Line, Over, Small, Charged, Alone;
    if step.Rename? {
      Renamed(s, step.a);
    } else if step.CloseFile? {
      ToldOfNothing(After(s, step));
    } else {
      ToldOtherwise(s, step);
    }
  }

  lemma KeepsWhole(s: State, step: Step)
    requires Whole(s) && Enabled(s, step) && !Shares(s, step)
    ensures Whole(After(s, step))
  {
    hide After, Enabled, Small, Charged, Alone, Own, Named, Readable, Shares;
    KeepsSmall(s, step);
    KeepsCharged(s, step);
    KeepsAlone(s, step);
    KeepsNamed(s, step);
    KeepsOwn(s, step);
    KeepsReadable(s, step);
  }

  // ---- What the ledger is short of ---------------------------------------------------------------

  /** What a step takes from the ledger, or puts back (less than nought): taken down, all it said; in
      a rename, what was put in since the renaming ask read it, and what does not fit 64 bits. */
  function Loses(s: State, step: Step): int {
    if !Enabled(s, step) || Told(s).Err? then 0
    else if step.CloseFile? then Told(s).value
    else if step.Rename? then
      var at := s.asks[step.a].at;
      Told(s).value - at.current + Beyond(at.current, s.asks[step.a].charged, at.now)
    else 0
  }

  function Beyond(current: nat, previous: nat, now: nat): int {
    match Replaced(current, previous, now)
    case Ok(total) => current - previous + now - total
    case Err(_) => 0
  }

  function Lost(s: State, steps: seq<Step>): int
    decreases |steps|
  {
    if steps == [] || !Enabled(s, steps[0]) then 0
    else Loses(s, steps[0]) + Lost(After(s, steps[0]), steps[1..])
  }

  ghost predicate Exact(s: State, lost: int) {
    Told(s).Ok? && Told(s).value == Sum(s.owed) - lost
  }

  lemma OwedOtherwise(s: State, step: Step)
    requires Charged(s) && Enabled(s, step) && !step.Rename?
    ensures Sum(After(s, step).owed) == Sum(s.owed)
  {
    hide Told, Line, Over, Replaced;
    if step.Start? {
      SumReplaced(s.owed, step.a, 0);
    }
  }

  lemma KeepsExact(s: State, step: Step, lost: int)
    requires Whole(s) && Exact(s, lost) && Enabled(s, step)
    ensures Exact(After(s, step), lost + Loses(s, step))
  {
    hide Told, Total, Line, Over, Small, Alone, Replaced;
    if step.Rename? {
      Renamed(s, step.a);
      SumReplaced(s.owed, step.a, s.asks[step.a].at.now);
    } else {
      OwedOtherwise(s, step);
      if step.CloseFile? {
        ToldOfNothing(After(s, step));
      } else {
        ToldOtherwise(s, step);
      }
    }
  }

  // ---- Whole runs ----------------------------------------------------------------------------------

  ghost predicate Runs(s: State, steps: seq<Step>, last: State)
    decreases |steps|
  {
    if steps == [] then
      last == s
    else
      Enabled(s, steps[0]) && Runs(After(s, steps[0]), steps[1..], last)
  }

  /** Nobody opens the file beside the ledger while another has it open. */
  ghost predicate Unshared(s: State, steps: seq<Step>)
    decreases |steps|
  {
    steps != [] && Enabled(s, steps[0]) ==>
      !Shares(s, steps[0]) && Unshared(After(s, steps[0]), steps[1..])
  }

  lemma BeginsWhole()
    ensures Whole(Begun()) && Exact(Begun(), 0)
  {
  }

  lemma {:induction false} RunKeepsExact(s: State, lost: int, steps: seq<Step>, last: State)
    requires Whole(s) && Exact(s, lost) && Runs(s, steps, last) && Unshared(s, steps)
    ensures Whole(last) && Exact(last, lost + Lost(s, steps))
    decreases |steps|
  {
    hide After, Enabled, Whole, Exact, Shares, Loses;
    if steps != [] {
      KeepsWhole(s, steps[0]);
      KeepsExact(s, steps[0], lost);
      RunKeepsExact(After(s, steps[0]), lost + Loses(s, steps[0]), steps[1..], last);
    }
  }

  /** Whatever is taken down and however asks interleave, so long as none opens the file beside the
      ledger under another's hands: the ledger is a number, and it is what all the asks have cost, the
      dead included, less what was lost on the way. */
  lemma LedgerIsWhatIsLeft(steps: seq<Step>, last: State)
    requires Runs(Begun(), steps, last) && Unshared(Begun(), steps)
    ensures Told(last).Ok? && Told(last).value == Sum(last.owed) - Lost(Begun(), steps)
  {
    hide Runs, Unshared, Lost, Whole;
    BeginsWhole();
    RunKeepsExact(Begun(), 0, steps, last);
  }

  /** A replacement's subtraction goes below nought exactly when more has been lost than all the other
      asks have put in. */
  lemma ChargeFailsExactly(steps: seq<Step>, last: State, a: nat)
    requires Runs(Begun(), steps, last) && Unshared(Begun(), steps)
    requires a in last.asks && last.asks[a].at.Holding?
    ensures Enabled(last, Read(a)) && a in last.owed
    ensures !Enabled(After(last, Read(a)), OpenNext(a)) <==> Lost(Begun(), steps) > Sum(last.owed - {a})
  {
    hide Runs, Unshared, Lost, Total;
    BeginsWhole();
    RunKeepsExact(Begun(), 0, steps, last);
    SumWithout(last.owed, a);
  }

  /** An ask is let through exactly when there is no cap, or what all the asks have cost, less what was
      lost, is below it. */
  lemma LetThroughExactly(steps: seq<Step>, last: State, cap: Option<nat>)
    requires Runs(Begun(), steps, last) && Unshared(Begun(), steps)
    ensures Refused(Spent(TextOf(last, last.file)), cap) <==>
            cap.Some? && Sum(last.owed) - Lost(Begun(), steps) >= cap.value
  {
    hide Runs, Unshared, Lost, Total;
    LedgerIsWhatIsLeft(steps, last);
  }

  // ---- Taken down while nobody is at the ledger ---------------------------------------------------

  predicate Closes(step: Step) {
    step.CloseFile? || step.CloseLock? || step.CloseNext?
  }

  /** Nothing is taken down while an ask has the lock open, held or not. */
  predicate Quiet(s: State, step: Step) {
    Closes(step) ==> forall a :: a in s.asks ==> !HasLock(s.asks[a].at)
  }

  predicate HasLock(at: At) {
    at.Opened? || Holds(at)
  }

  /** The lock every ask has open is the one the name names, and only who holds it is part way through
      a replacement. */
  predicate Locked(s: State) {
    forall a :: a in s.asks && HasLock(s.asks[a].at) ==>
      var lock := s.asks[a].at.lock;
      s.lock == Some(lock) && (Holds(s.asks[a].at) ==> lock in s.flock && s.flock[lock] == a)
  }

  /** The ledger still says what was read of it. */
  predicate Current(s: State) {
    forall a :: a in s.asks && (s.asks[a].at.Seen? || AtWork(s.asks[a].at)) ==> Told(s) == Ok(s.asks[a].at.current)
  }

  lemma KeepsLocked(s: State, step: Step)
    requires Locked(s) && Enabled(s, step) && Quiet(s, step)
    ensures Locked(After(s, step))
  {
    hide Told, Replaced, Line, Over;
  }

  lemma OneHolds(s: State, a: nat, b: nat)
    requires Locked(s) && a in s.asks && b in s.asks && Holds(s.asks[a].at) && Holds(s.asks[b].at)
    ensures a == b
  {
  }

  lemma LockedIsUnshared(s: State, step: Step)
    requires Locked(s) && Enabled(s, step)
    ensures !Shares(s, step)
  {
    if step.OpenNext? {
      forall b | b in s.asks && AtWork(s.asks[b].at)
        ensures b == step.a
      {
        OneHolds(s, step.a, b);
      }
    }
  }

  lemma KeepsCurrent(s: State, step: Step)
    requires Whole(s) && Locked(s) && Current(s) && Enabled(s, step) && Quiet(s, step)
    ensures Current(After(s, step))
  {
    hide Told, Total, Line, Over, Replaced, Small, Charged, Alone, Readable;
    var n := After(s, step);
    if step.Rename? {
      forall b | b in n.asks && (n.asks[b].at.Seen? || AtWork(n.asks[b].at))
        ensures b == step.a
      {
        OneHolds(s, step.a, b);
      }
    } else if !step.CloseFile? {
      ToldOtherwise(s, step);
    }
  }

  /** What all the asks had cost when the ledger was last taken down, and whether what they have put in
      since has ever come to what 64 bits hold. */
  datatype Since = Since(before: nat, over: bool)

  ghost function NextSince(s: State, d: Since, step: Step): Since
    requires Enabled(s, step)
  {
    if step.CloseFile? then Since(Sum(s.owed), false)
    else d.(over := d.over || Sum(After(s, step).owed) - d.before >= U64_MAX)
  }

  ghost function SinceClosed(s: State, d: Since, steps: seq<Step>): Since
    decreases |steps|
  {
    if steps == [] || !Enabled(s, steps[0]) then d
    else SinceClosed(After(s, steps[0]), NextSince(s, d, steps[0]), steps[1..])
  }

  ghost predicate Stands(s: State, d: Since) {
    && Told(s).Ok? && Told(s).value == (if d.over then U64_MAX else Sum(s.owed) - d.before)
    && (Sum(s.owed) - d.before >= U64_MAX ==> d.over)
  }

  lemma KeepsStands(s: State, step: Step, d: Since)
    requires Whole(s) && Current(s) && Stands(s, d) && Enabled(s, step)
    ensures Stands(After(s, step), NextSince(s, d, step))
  {
    hide Told, Total, Line, Over, Small, Alone;
    if step.Rename? {
      Renamed(s, step.a);
      SumReplaced(s.owed, step.a, s.asks[step.a].at.now);
    } else {
      OwedOtherwise(s, step);
      if step.CloseFile? {
        ToldOfNothing(After(s, step));
      } else {
        ToldOtherwise(s, step);
      }
    }
  }

  ghost predicate AllQuiet(s: State, steps: seq<Step>)
    decreases |steps|
  {
    steps != [] && Enabled(s, steps[0]) ==>
      Quiet(s, steps[0]) && AllQuiet(After(s, steps[0]), steps[1..])
  }

  ghost predicate Orderly(s: State, d: Since) {
    Whole(s) && Locked(s) && Current(s) && Stands(s, d)
  }

  lemma KeepsOrderly(s: State, step: Step, d: Since)
    requires Orderly(s, d) && Enabled(s, step) && Quiet(s, step)
    ensures Orderly(After(s, step), NextSince(s, d, step)) && !Shares(s, step)
  {
    hide After, Enabled, Whole, Locked, Current, Stands, Quiet, NextSince, Shares;
    LockedIsUnshared(s, step);
    KeepsWhole(s, step);
    KeepsLocked(s, step);
    KeepsCurrent(s, step);
    KeepsStands(s, step, d);
  }

  lemma {:induction false} RunKeepsOrderly(s: State, d: Since, steps: seq<Step>, last: State)
    requires Orderly(s, d) && Runs(s, steps, last) && AllQuiet(s, steps)
    ensures Orderly(last, SinceClosed(s, d, steps)) && Unshared(s, steps)
    decreases |steps|
  {
    hide After, Enabled, Orderly, Shares, Quiet, NextSince;
    if steps != [] {
      KeepsOrderly(s, steps[0], d);
      RunKeepsOrderly(After(s, steps[0]), NextSince(s, d, steps[0]), steps[1..], last);
    }
  }

  lemma BeginsOrderly()
    ensures Orderly(Begun(), Since(0, false))
  {
    BeginsWhole();
  }

  /** Taken down only while nobody is at it, the ledger is exactly what the asks have put in since, each
      once and at its latest, until that has once come to `u64::MAX`, and `u64::MAX` from then on. No
      two ever have the file beside it open. */
  lemma LedgerSinceTheClose(steps: seq<Step>, last: State)
    requires Runs(Begun(), steps, last) && AllQuiet(Begun(), steps)
    ensures var d := SinceClosed(Begun(), Since(0, false), steps);
            Told(last).Ok? && Told(last).value == if d.over then U64_MAX else Sum(last.owed) - d.before
    ensures Unshared(Begun(), steps)
  {
    hide Runs, AllQuiet, SinceClosed, Unshared, Told, Whole, Locked, Current;
    BeginsOrderly();
    RunKeepsOrderly(Begun(), Since(0, false), steps, last);
  }

  /** Then a replacement fails exactly when the asks together have since put in less than it has to take
      back. */
  lemma QuietChargeFailsExactly(steps: seq<Step>, last: State, a: nat)
    requires Runs(Begun(), steps, last) && AllQuiet(Begun(), steps)
    requires a in last.asks && last.asks[a].at.Holding?
    ensures Enabled(last, Read(a))
    ensures var d := SinceClosed(Begun(), Since(0, false), steps);
            !Enabled(After(last, Read(a)), OpenNext(a)) <==>
            !d.over && Sum(last.owed) - d.before < last.asks[a].charged
  {
    hide Runs, AllQuiet, SinceClosed, Unshared, Told, Locked, Current;
    BeginsOrderly();
    RunKeepsOrderly(Begun(), Since(0, false), steps, last);
  }

  // ---- Never taken down --------------------------------------------------------------------------

  predicate Unclosed(steps: seq<Step>) {
    forall i :: 0 <= i < |steps| ==> !Closes(steps[i])
  }

  /** Whether the asks together ever came to `u64::MAX` or more along the way. */
  ghost predicate EverOver(s: State, steps: seq<Step>)
    decreases |steps|
  {
    Sum(s.owed) >= U64_MAX
    || (steps != [] && Enabled(s, steps[0]) && EverOver(After(s, steps[0]), steps[1..]))
  }

  lemma {:induction false} UnclosedIsQuiet(s: State, over: bool, steps: seq<Step>, last: State)
    requires Unclosed(steps) && Runs(s, steps, last) && (Sum(s.owed) >= U64_MAX ==> over)
    ensures AllQuiet(s, steps)
    ensures SinceClosed(s, Since(0, over), steps) == Since(0, over || EverOver(s, steps))
    decreases |steps|
  {
    hide After, Enabled;
    if steps != [] {
      var n := After(s, steps[0]);
      UnclosedIsQuiet(n, over || Sum(n.owed) >= U64_MAX, steps[1..], last);
    }
  }

  /** Over any interleaving of any number of asks, starting, charging, failing and dying, while nothing is
      taken down: the ledger holds exactly what they have cost, each once and at its latest, the dead
      included, until that has once come to `u64::MAX`, and `u64::MAX` from then on. */
  lemma LedgerIsTheSum(steps: seq<Step>, last: State)
    requires Runs(Begun(), steps, last) && Unclosed(steps)
    ensures Told(last) == Ok(if EverOver(Begun(), steps) then U64_MAX else Sum(last.owed))
  {
    hide Runs, Told, EverOver;
    UnclosedIsQuiet(Begun(), false, steps, last);
    LedgerSinceTheClose(steps, last);
  }

  /** And the one arithmetic failure a replacement has never happens. */
  lemma AlwaysContainsTheCharge(steps: seq<Step>, last: State, a: nat)
    requires Runs(Begun(), steps, last) && Unclosed(steps) && a in last.asks && last.asks[a].at.Seen?
    ensures Enabled(last, OpenNext(a))
  {
    hide Total, Runs, EverOver;
    UnclosedIsQuiet(Begun(), false, steps, last);
    BeginsOrderly();
    RunKeepsOrderly(Begun(), Since(0, false), steps, last);
    SumOfOne(last.owed, a);
  }

  /** And an ask is let through exactly when there is no cap, or all the run's asks together, none of
      them forgotten, are below it and always were below what 64 bits hold. */
  lemma AdmittedBelowTheCap(steps: seq<Step>, last: State, cap: Option<nat>)
    requires Runs(Begun(), steps, last) && Unclosed(steps) && (cap.Some? ==> cap.value <= U64_MAX)
    ensures Refused(Spent(TextOf(last, last.file)), cap) <==>
            cap.Some? && (EverOver(Begun(), steps) || Sum(last.owed) >= cap.value)
  {
    hide Total, Runs, EverOver;
    LedgerIsTheSum(steps, last);
  }

  // ---- Runs in which it goes wrong ------------------------------------------------------------------

  lemma {:induction false} Goes(s: State, steps: seq<Step>, mid: State, step: Step)
    requires Runs(s, steps, mid) && Enabled(mid, step)
    ensures Runs(s, steps + [step], After(mid, step))
    decreases |steps|
  {
    hide After, Enabled;
    if steps == [] {
      assert Runs(After(mid, step), [], After(mid, step));
    } else {
      Goes(After(s, steps[0]), steps[1..], mid, step);
      assert (steps + [step])[1..] == steps[1..] + [step];
    }
  }

  lemma Nowhere(s: State)
    ensures Runs(s, [], s)
  {
  }

  /** One ask up to its first reading of the ledger. */
  lemma OneReads(now: nat) returns (steps: seq<Step>, last: State)
    requires 0 < now <= U64_MAX
    ensures Runs(Begun(), steps, last)
    ensures last == State(map[0 := Ask(0, Seen(now, 0, 0))], map[0 := 0], map[0 := 0], Some(0), None, None, map[], 1)
  {
    hide Runs;
    Nowhere(Begun());
    Goes(Begun(), [], Begun(), Start(0));
    steps, last := [] + [Start(0)], After(Begun(), Start(0));
    Goes(Begun(), steps, last, Hear(0, now));
    steps, last := steps + [Hear(0, now)], After(last, Hear(0, now));
    Goes(Begun(), steps, last, OpenLock(0));
    steps, last := steps + [OpenLock(0)], After(last, OpenLock(0));
    Goes(Begun(), steps, last, TakeLock(0));
    steps, last := steps + [TakeLock(0)], After(last, TakeLock(0));
    Goes(Begun(), steps, last, Read(0));
    steps, last := steps + [Read(0)], After(last, Read(0));
  }

  /** And on until it has charged and come to rest. */
  lemma OneCharges(charged: nat) returns (steps: seq<Step>, last: State)
    requires 0 < charged <= U64_MAX
    ensures Runs(Begun(), steps, last) && last == Rested(charged)
  {
    hide Runs, Line, Total;
    steps, last := OneReads(charged);
    Goes(Begun(), steps, last, OpenNext(0));
    steps, last := steps + [OpenNext(0)], After(last, OpenNext(0));
    Goes(Begun(), steps, last, WriteNext(0));
    steps, last := steps + [WriteNext(0)], After(last, WriteNext(0));
    assert last.text[1] == Line(charged);
    Goes(Begun(), steps, last, Rename(0));
    steps, last := steps + [Rename(0)], After(last, Rename(0));
    Goes(Begun(), steps, last, Unlock(0));
    steps, last := steps + [Unlock(0)], After(last, Unlock(0));
    assert map[0 := 0] - {0} == map[];
  }

  function Rested(charged: nat): State {
    State(map[0 := Ask(charged, Idle)], map[0 := charged], map[], Some(0), Some(1), None, map[1 := Line(charged)], 2)
  }

  /** The ledger and its lock are taken down, and the ask goes on. */
  lemma ReadsNothing(charged: nat, now: nat) returns (steps: seq<Step>, last: State)
    requires 0 < now <= U64_MAX && now != charged
    ensures Runs(Rested(charged), steps, last)
    ensures last == Rested(charged).(asks := map[0 := Ask(charged, Seen(now, 2, 0))], flock := map[2 := 0],
                                     lock := Some(2), file := None, count := 3)
  {
    hide Runs, Line;
    var s := Rested(charged);
    Nowhere(s);
    Goes(s, [], s, CloseFile);
    steps, last := [] + [CloseFile], After(s, CloseFile);
    Goes(s, steps, last, CloseLock);
    steps, last := steps + [CloseLock], After(last, CloseLock);
    Goes(s, steps, last, Hear(0, now));
    steps, last := steps + [Hear(0, now)], After(last, Hear(0, now));
    Goes(s, steps, last, OpenLock(0));
    steps, last := steps + [OpenLock(0)], After(last, OpenLock(0));
    Goes(s, steps, last, TakeLock(0));
    steps, last := steps + [TakeLock(0)], After(last, TakeLock(0));
    Goes(s, steps, last, Read(0));
    steps, last := steps + [Read(0)], After(last, Read(0));
  }

  /** Taken down between two charges of one ask, by the session that began the run: the second fails
      whatever it comes to, and any cap the first had reached lets asks through again. */
  lemma TakenDownBetween(charged: nat, now: nat)
    returns (steps: seq<Step>, mid: State, more: seq<Step>, last: State)
    requires 0 < charged <= U64_MAX && 0 < now <= U64_MAX && now != charged
    ensures Runs(Begun(), steps, mid) && Runs(mid, more, last)
    ensures forall cap: nat :: 0 < cap <= charged ==> Refused(Spent(TextOf(mid, mid.file)), Some(cap))
    ensures forall cap: nat :: 0 < cap ==> !Refused(Spent(TextOf(last, last.file)), Some(cap))
    ensures last.owed == mid.owed == map[0 := charged]
    ensures 0 in last.asks && last.asks[0].at.Seen? && !Enabled(last, OpenNext(0))
  {
    hide Runs, Line;
    steps, mid := OneCharges(charged);
    more, last := ReadsNothing(charged, now);
    LineReadsBack(charged);
  }

  /** Two asks at once, the lock having been taken down between them: each holds a lock, ... */
  lemma BothRead(now: nat, other: nat) returns (steps: seq<Step>, last: State)
    requires 0 < now <= U64_MAX && 0 < other <= U64_MAX
    ensures Runs(Begun(), steps, last)
    ensures last == State(map[0 := Ask(0, Seen(now, 0, 0)), 1 := Ask(0, Seen(other, 1, 0))], map[0 := 0, 1 := 0],
                          map[0 := 0, 1 := 1], Some(1), None, None, map[], 2)
  {
    hide Runs;
    steps, last := OneReads(now);
    Goes(Begun(), steps, last, CloseLock);
    steps, last := steps + [CloseLock], After(last, CloseLock);
    Goes(Begun(), steps, last, Start(1));
    steps, last := steps + [Start(1)], After(last, Start(1));
    Goes(Begun(), steps, last, Hear(1, other));
    steps, last := steps + [Hear(1, other)], After(last, Hear(1, other));
    Goes(Begun(), steps, last, OpenLock(1));
    steps, last := steps + [OpenLock(1)], After(last, OpenLock(1));
    Goes(Begun(), steps, last, TakeLock(1));
    steps, last := steps + [TakeLock(1)], After(last, TakeLock(1));
    Goes(Begun(), steps, last, Read(1));
    steps, last := steps + [Read(1)], After(last, Read(1));
  }

  /** ... and one empties the file the other is about to rename. If it goes no further the ledger is no
      number, and whatever the cap, every ask is refused though all of them together cost only `now`. */
  lemma LedgerCanBeUnreadable(now: nat, other: nat) returns (steps: seq<Step>, last: State)
    requires 0 < now <= U64_MAX && 0 < other <= U64_MAX
    ensures Runs(Begun(), steps, last) && last.owed == map[0 := now, 1 := 0]
    ensures Told(last) == Err(NotANumber) && !Unshared(Begun(), steps)
    ensures forall cap: nat :: cap <= U64_MAX ==> Refused(Spent(TextOf(last, last.file)), Some(cap))
  {
    hide Runs, Line, Unshared;
    steps, last := BothRead(now, other);
    Goes(Begun(), steps, last, OpenNext(0));
    steps, last := steps + [OpenNext(0)], After(last, OpenNext(0));
    Goes(Begun(), steps, last, WriteNext(0));
    steps, last := steps + [WriteNext(0)], After(last, WriteNext(0));
    Goes(Begun(), steps, last, OpenNext(1));
    steps, last := steps + [OpenNext(1)], After(last, OpenNext(1));
    Goes(Begun(), steps, last, Rename(0));
    steps, last := steps + [Rename(0)], After(last, Rename(0));
    Goes(Begun(), steps, last, Die(1));
    steps, last := steps + [Die(1)], After(last, Die(1));
    if Unshared(Begun(), steps) {
      LedgerIsWhatIsLeft(steps, last);
    }
  }

  /** What an ask writes stands over what another put into the file, and leaves what was longer. */
  lemma OverKeepsTheRest(was: string, line: string)
    ensures line <= Over(was, line)
    ensures |Over(was, line)| == if |line| < |was| then |was| else |line|
    ensures Over(was, line)[|line|..] == if |line| < |was| then was[|line|..] else ""
  {
  }

  // ---- A lock is not kept longer than a replacement ---------------------------------------------------

  /** A lock is held only by an ask that is alive and at work under it. */
  predicate Worked(s: State) {
    && (forall a :: a in s.asks ==> a in s.owed)
    && (forall i :: i in s.flock ==>
          var a := s.flock[i];
          a in s.asks && Holds(s.asks[a].at) && s.asks[a].at.lock == i)
  }

  lemma KeepsWorked(s: State, step: Step)
    requires Worked(s) && Enabled(s, step)
    ensures Worked(After(s, step))
  {
    hide Told, Replaced, Line, Over;
  }

  lemma {:induction false} RunKeepsWorked(s: State, steps: seq<Step>, last: State)
    requires Worked(s) && Runs(s, steps, last)
    ensures Worked(last)
    decreases |steps|
  {
    hide After, Enabled, Worked;
    if steps != [] {
      KeepsWorked(s, steps[0]);
      RunKeepsWorked(After(s, steps[0]), steps[1..], last);
    }
  }

  /** Over every run: an ask that fails, dies or is done lets its lock go, so a lock nobody alive is at work
      under can be taken. */
  lemma LocksAreLetGo(steps: seq<Step>, last: State, a: nat)
    requires Runs(Begun(), steps, last) && a in last.asks && last.asks[a].at.Opened?
    requires forall b :: b in last.asks && Holds(last.asks[b].at) ==> last.asks[b].at.lock != last.asks[a].at.lock
    ensures Enabled(last, TakeLock(a))
  {
    hide Runs;
    RunKeepsWorked(Begun(), steps, last);
  }

  /** Taking it all down leaves an empty ledger, a lock still to be made, and no file to be renamed into
      place: an ask that was about to has failed, and what it was to charge is not charged. */
  lemma TakenDown(s: State)
    ensures var last := After(After(After(s, CloseFile), CloseLock), CloseNext);
            && Told(last) == Ok(0) && last.lock.None? && last.next.None?
            && last.asks == s.asks && last.owed == s.owed && last.flock == s.flock
            && forall a :: !Enabled(last, Rename(a))
  {
    ToldOfNothing(After(After(After(s, CloseFile), CloseLock), CloseNext));
  }

  // ---- A replacement that nothing gets in the way of ------------------------------------------------------

  /** Nobody is at the ledger. */
  predicate Unworked(s: State) {
    s.flock == map[] && forall b :: b in s.asks ==> !Holds(s.asks[b].at)
  }

  lemma {:induction false} RunsOn(s: State, steps: seq<Step>, mid: State, more: seq<Step>, last: State)
    requires Runs(s, steps, mid) && Runs(mid, more, last)
    ensures Runs(s, steps + more, last)
    decreases |steps|
  {
    hide After, Enabled;
    if steps == [] {
      assert steps + more == more;
    } else {
      RunsOn(After(s, steps[0]), steps[1..], mid, more, last);
      assert (steps + more)[1..] == steps[1..] + more;
    }
  }

  /** The lock an ask comes to open. */
  function LockOf(s: State): Inode {
    if s.lock.Some? then s.lock.value else s.count
  }

  lemma Locks(s: State, a: nat, now: nat) returns (steps: seq<Step>, last: State)
    requires Unworked(s) && a in s.asks && s.asks[a].at.Idle? && now != s.asks[a].charged && now <= U64_MAX
    ensures steps == [Hear(a, now), OpenLock(a), TakeLock(a)] && Runs(s, steps, last)
    ensures last == s.(asks := s.asks[a := Ask(s.asks[a].charged, Holding(now, LockOf(s)))],
                       flock := map[LockOf(s) := a], lock := Some(LockOf(s)),
                       count := if s.lock.Some? then s.count else s.count + 1)
  {
    hide Runs;
    Nowhere(s);
    Goes(s, [], s, Hear(a, now));
    steps, last := [] + [Hear(a, now)], After(s, Hear(a, now));
    Goes(s, steps, last, OpenLock(a));
    steps, last := steps + [OpenLock(a)], After(last, OpenLock(a));
    Goes(s, steps, last, TakeLock(a));
    steps, last := steps + [TakeLock(a)], After(last, TakeLock(a));
    assert last.asks == s.asks[a := Ask(s.asks[a].charged, Holding(now, LockOf(s)))];
  }

  /** Nobody else holding a lock, no step of a run shares the file beside the ledger. */
  lemma {:induction false} RunKeepsWhole(s: State, steps: seq<Step>, last: State, a: nat)
    requires Whole(s) && Runs(s, steps, last) && forall step :: step in steps ==> OnlyOf(step, a)
    requires forall b :: b in s.asks && b != a ==> !Holds(s.asks[b].at)
    ensures Whole(last)
    decreases |steps|
  {
    hide After, Enabled, Whole;
    if steps != [] {
      OthersRest(s, steps[0], a);
      KeepsWhole(s, steps[0]);
      RunKeepsWhole(After(s, steps[0]), steps[1..], last, a);
    }
  }

  /** A step of `a`'s own. */
  predicate OnlyOf(step: Step, a: nat) {
    !Closes(step) && !step.Start? && step.a == a
  }

  lemma OthersRest(s: State, step: Step, a: nat)
    requires Enabled(s, step) && OnlyOf(step, a)
    requires forall b :: b in s.asks && b != a ==> !Holds(s.asks[b].at)
    ensures !Shares(s, step)
    ensures forall b :: b in After(s, step).asks && b != a ==> !Holds(After(s, step).asks[b].at)
  {
    hide Told, Replaced, Line, Over;
  }

  lemma Writes(s: State, a: nat) returns (steps: seq<Step>, last: State)
    requires a in s.asks && s.asks[a].at.Holding? && Told(s).Ok?
    requires Replaced(Told(s).value, s.asks[a].charged, s.asks[a].at.now).Ok?
    ensures steps == [Read(a), OpenNext(a), WriteNext(a)] && Runs(s, steps, last)
    ensures a in last.asks && last.asks[a].at.Ready? && last.asks[a].charged == s.asks[a].charged
    ensures last.asks[a].at.now == s.asks[a].at.now && last.asks[a].at.lock == s.asks[a].at.lock
    ensures last.asks[a].at.current == Told(s).value && last.next.Some?
    ensures last.asks == s.asks[a := last.asks[a]] && last.owed == s.owed && last.flock == s.flock
  {
    hide Runs, Told, Line, Replaced;
    Nowhere(s);
    Goes(s, [], s, Read(a));
    steps, last := [] + [Read(a)], After(s, Read(a));
    Goes(s, steps, last, OpenNext(a));
    steps, last := steps + [OpenNext(a)], After(last, OpenNext(a));
    Goes(s, steps, last, WriteNext(a));
    steps, last := steps + [WriteNext(a)], After(last, WriteNext(a));
    assert last.asks == s.asks[a := last.asks[a]];
  }

  lemma Puts(s: State, a: nat) returns (steps: seq<Step>, last: State)
    requires Whole(s) && a in s.asks && s.asks[a].at.Ready? && s.next.Some?
    requires s.asks[a].at.lock in s.flock
    ensures steps == [Rename(a), Unlock(a)] && Runs(s, steps, last)
    ensures Told(last) == Replaced(s.asks[a].at.current, s.asks[a].charged, s.asks[a].at.now)
    ensures last.asks == s.asks[a := Ask(s.asks[a].at.now, Idle)] && last.owed == s.owed[a := s.asks[a].at.now]
    ensures last.flock == s.flock - {s.asks[a].at.lock}
  {
    hide Runs, Whole, Replaced, Line, Total;
    Renamed(s, a);
    Nowhere(s);
    Goes(s, [], s, Rename(a));
    steps, last := [] + [Rename(a)], After(s, Rename(a));
    Goes(s, steps, last, Unlock(a));
    steps, last := steps + [Unlock(a)], After(last, Unlock(a));
    assert last.asks == s.asks[a := Ask(s.asks[a].at.now, Idle)];
  }

  /** From any state in which nobody is at the ledger, an ask whose charge it still contains can charge
      anew: it comes to rest with just that in the ledger for it, and nothing else has changed. */
  lemma ChargeRuns(s: State, a: nat, now: nat) returns (steps: seq<Step>, last: State)
    requires Whole(s) && Unworked(s) && a in s.asks && s.asks[a].at.Idle?
    requires now != s.asks[a].charged && now <= U64_MAX
    requires Told(s).Ok? && (Told(s).value == U64_MAX || s.asks[a].charged <= Told(s).value)
    ensures Runs(s, steps, last) && Unworked(last)
    ensures last.asks == s.asks[a := Ask(now, Idle)] && last.owed == s.owed[a := now]
    ensures var total := Told(s).value;
            Told(last) == Ok(if total == U64_MAX || total - s.asks[a].charged + now > U64_MAX then U64_MAX
                             else total - s.asks[a].charged + now)
  {
    hide Runs, Whole, Told, After, Enabled;
    var first, one := Locks(s, a, now);
    SameText(s, one);
    var second, two := Writes(one, a);
    AllOf(first, second, a, now);
    RunsOn(s, first, one, second, two);
    RunKeepsWhole(s, first + second, two, a);
    var third;
    third, last := Puts(two, a);
    RunsOn(s, first + second, two, third, last);
    steps := first + second + third;
    assert last.asks == s.asks[a := Ask(now, Idle)];
  }

  lemma SameText(s: State, t: State)
    requires t.file == s.file && t.text == s.text
    ensures Told(t) == Told(s)
  {
  }

  lemma AllOf(first: seq<Step>, second: seq<Step>, a: nat, now: nat)
    requires first == [Hear(a, now), OpenLock(a), TakeLock(a)] && second == [Read(a), OpenNext(a), WriteNext(a)]
    ensures forall step :: step in first + second ==> OnlyOf(step, a)
  {
  }
}
