/** The process's own event queue: any number of emitters that never block, one receiver that may go
    away at any moment, a bounded channel between them, and counters that must account for every
    attempt whichever way the steps fall. Each atomic operation of `src/events/mod.rs` is one step. */
module EventQueue {
  import opened Options
  import opened Sets

  const U64_MAX := 0xFFFF_FFFF_FFFF_FFFF
  const WRAP := 0x1_0000_0000_0000_0000
  const QUEUED_EVENTS := 256

  /** What becomes of an attempt that does not leave an event behind. */
  datatype Lost = Full | Closed | Encoding | Exhausted

  /** How far one attempt to emit has got. Only the last step takes it out of `active`. */
  datatype At =
    | Activated
    | Sequenced(sequence: nat)
    | Open(sequence: nat)
    | Ready(sequence: nat)
    | Sent
    | Losing(lost: Lost)
    | Leaving

  /** One number for each thing counted. */
  datatype Counts = Counts(enqueued: nat, dequeued: nat, full: nat, closed: nat, encoding: nat, exhausted: nat)

  /** `counters` are the atomics, `tally` how often each was really added to. `got` and `queue` are
      the sequence numbers received and still in the channel; what a disconnected channel throws
      away stays in `queue`. `refused` are attempts turned away by `active` and not counted yet. */
  datatype State = State(
    emitters: map<nat, At>, active: nat, sequence: nat,
    got: seq<nat>, queue: seq<nat>, popping: bool, closed: bool, disconnected: bool,
    counters: Counts, tally: Counts, attempts: nat, refused: nat, extra: nat)

  datatype Step =
    | Begin
    | CountRefused
    | TakeSequence(e: nat)
    | LoadClosed(e: nat)
    | Encode(e: nat, ok: bool)
    | Send(e: nat)
    | CountSent(e: nat)
    | CountLost(e: nat)
    | Leave(e: nat)
    | Pop
    | CountPop
    | Close
    | Disconnect
    | CountOutside

  const NONE := Counts(0, 0, 0, 0, 0, 0)

  function Begun(): State {
    State(map[], 0, 1, [], [], false, false, false, NONE, NONE, 0, 0, 0)
  }

  /** `fetch_add` on 64 bits. */
  function Wrapped(n: nat): nat {
    (n + 1) % WRAP
  }

  function Saturated(n: nat): nat {
    if n >= U64_MAX then U64_MAX else n + 1
  }

  predicate Enabled(s: State, step: Step) {
    match step
    case Begin => s.attempts !in s.emitters
    case CountRefused => s.refused > 0
    case TakeSequence(e) => e in s.emitters && s.emitters[e].Activated?
    case LoadClosed(e) => e in s.emitters && s.emitters[e].Sequenced?
    case Encode(e, ok) => e in s.emitters && s.emitters[e].Open?
    case Send(e) => e in s.emitters && s.emitters[e].Ready?
    case CountSent(e) => e in s.emitters && s.emitters[e].Sent?
    case CountLost(e) => e in s.emitters && s.emitters[e].Losing?
    case Leave(e) => e in s.emitters && s.emitters[e].Leaving? && s.active > 0
    case Pop => !s.closed && !s.popping && s.queue != []
    case CountPop => s.popping
    case Close => !s.popping && !s.closed
    case Disconnect => s.closed && !s.disconnected
    case CountOutside => true
  }

  function Now(s: State, e: nat, at: At): State {
    s.(emitters := s.emitters[e := at])
  }

  function Adding(c: Counts, lost: Lost): Counts {
    match lost
    case Full => c.(full := Saturated(c.full))
    case Closed => c.(closed := Saturated(c.closed))
    case Encoding => c.(encoding := Saturated(c.encoding))
    case Exhausted => c.(exhausted := Saturated(c.exhausted))
  }

  function Tallying(c: Counts, lost: Lost): Counts {
    match lost
    case Full => c.(full := c.full + 1)
    case Closed => c.(closed := c.closed + 1)
    case Encoding => c.(encoding := c.encoding + 1)
    case Exhausted => c.(exhausted := c.exhausted + 1)
  }

  function Lose(s: State, lost: Lost): State {
    s.(counters := Adding(s.counters, lost), tally := Tallying(s.tally, lost))
  }

  function After(s: State, step: Step): State
    requires Enabled(s, step)
  {
    match step
    case Begin =>
      if s.active >= U64_MAX then
        s.(attempts := s.attempts + 1, refused := s.refused + 1)
      else
        Now(s, s.attempts, Activated).(attempts := s.attempts + 1, active := s.active + 1)
    case CountRefused => Lose(s, Exhausted).(refused := s.refused - 1)
    case TakeSequence(e) =>
      if s.sequence >= U64_MAX || s.sequence == 0 then
        Now(s, e, Losing(Exhausted))
      else
        Now(s, e, Sequenced(s.sequence)).(sequence := s.sequence + 1)
    case LoadClosed(e) => Now(s, e, if s.closed then Losing(Closed) else Open(s.emitters[e].sequence))
    case Encode(e, ok) => Now(s, e, if ok then Ready(s.emitters[e].sequence) else Losing(Encoding))
    case Send(e) =>
      if s.disconnected then
        Now(s, e, Losing(Closed))
      else if |s.queue| >= QUEUED_EVENTS then
        Now(s, e, Losing(Full))
      else
        Now(s, e, Sent).(queue := s.queue + [s.emitters[e].sequence])
    case CountSent(e) =>
      Now(s, e, Leaving).(counters := s.counters.(enqueued := Wrapped(s.counters.enqueued)),
                          tally := s.tally.(enqueued := s.tally.enqueued + 1))
    case CountLost(e) => Now(Lose(s, s.emitters[e].lost), e, Leaving)
    case Leave(e) => s.(emitters := s.emitters - {e}, active := s.active - 1)
    case Pop => s.(got := s.got + [s.queue[0]], queue := s.queue[1..], popping := true)
    case CountPop =>
      s.(popping := false, counters := s.counters.(dequeued := Wrapped(s.counters.dequeued)),
         tally := s.tally.(dequeued := s.tally.dequeued + 1))
    case Close => s.(closed := true)
    case Disconnect => s.(disconnected := true)
    case CountOutside => Lose(s, Exhausted).(extra := s.extra + 1)
  }

  /** `Counters::snapshot`. */
  datatype Loss = Loss(abandoned: nat, full: nat, closed: nat, encoding: nat, exhausted: nat)

  function Snapshot(s: State): Loss {
    var c := s.counters;
    Loss(if s.closed && c.enqueued > c.dequeued then c.enqueued - c.dequeued else 0,
         c.full, c.closed, c.encoding, c.exhausted)
  }

  // ---- What always holds ----------------------------------------------------------------------------

  /** The attempts that have come to nothing yet, in the counts. */
  function Uncounted(s: State): set<nat> {
    set e | e in s.emitters && !s.emitters[e].Leaving?
  }

  function Sending(s: State): set<nat> {
    set e | e in s.emitters && s.emitters[e].Sent?
  }

  function Total(c: Counts): nat {
    c.enqueued + c.full + c.closed + c.encoding + c.exhausted
  }

  predicate ActiveIsExact(s: State) {
    s.active == |s.emitters|
  }

  /** Every attempt is counted once: under way, turned away, or in exactly one counter. */
  predicate Accounted(s: State) {
    s.attempts + s.extra == |Uncounted(s)| + s.refused + Total(s.tally)
  }

  predicate Old(s: State) {
    && (forall e :: e in s.emitters ==> e < s.attempts)
    && |s.emitters| <= s.attempts
    && (s.refused > 0 ==> s.attempts > U64_MAX)
  }

  /** What went into the channel came out of it or is still there. */
  predicate Conserved(s: State) {
    && s.tally.enqueued + |Sending(s)| == |s.got| + |s.queue|
    && s.tally.dequeued + (if s.popping then 1 else 0) == |s.got|
    && |s.queue| <= QUEUED_EVENTS
    && (s.closed ==> !s.popping) && (s.disconnected ==> s.closed)
  }

  function Wrap64(n: nat): nat {
    n % WRAP
  }

  function Cap64(n: nat): nat {
    Min(n, U64_MAX)
  }

  /** What the atomics hold once things have really been counted so often. */
  function Seen(t: Counts): Counts {
    Counts(Wrap64(t.enqueued), Wrap64(t.dequeued), Cap64(t.full), Cap64(t.closed), Cap64(t.encoding),
           Cap64(t.exhausted))
  }

  predicate Faithful(s: State) {
    s.counters == Seen(s.tally)
  }

  function SequenceOf(at: At): Option<nat> {
    match at
    case Sequenced(n) => Some(n)
    case Open(n) => Some(n)
    case Ready(n) => Some(n)
    case _ => None
  }

  /** The numbers of every event ever sent, in the order they went in. */
  function Log(s: State): seq<nat> {
    s.got + s.queue
  }

  predicate Distinct(s: State) {
    && 1 <= s.sequence <= U64_MAX
    && (forall i :: 0 <= i < |Log(s)| ==> 1 <= Log(s)[i] < s.sequence)
    && (forall i, j :: 0 <= i < j < |Log(s)| ==> Log(s)[i] != Log(s)[j])
  }

  predicate Held(s: State) {
    forall e :: e in s.emitters && SequenceOf(s.emitters[e]).Some? ==>
      1 <= SequenceOf(s.emitters[e]).value < s.sequence && SequenceOf(s.emitters[e]).value !in Log(s)
  }

  predicate Apart(s: State) {
    forall e, f :: e in s.emitters && f in s.emitters && e != f && SequenceOf(s.emitters[e]).Some? ==>
      SequenceOf(s.emitters[e]) != SequenceOf(s.emitters[f])
  }

  /** Every number is handed out once, and goes into the channel at most once. */
  predicate Numbered(s: State) {
    Distinct(s) && Held(s) && Apart(s)
  }

  predicate Inv(s: State) {
    ActiveIsExact(s) && Accounted(s) && Old(s) && Conserved(s) && Faithful(s) && Numbered(s)
  }

  lemma Uncounting(s: State, step: Step)
    requires Enabled(s, step) && Old(s)
    ensures var u := Uncounted(After(s, step));
            match step
            case Begin => u == if s.active >= U64_MAX then Uncounted(s) else Uncounted(s) + {s.attempts}
            case CountSent(e) => e in Uncounted(s) && u == Uncounted(s) - {e}
            case CountLost(e) => e in Uncounted(s) && u == Uncounted(s) - {e}
            case _ => u == Uncounted(s)
  {
  }

  lemma CountsAfter(s: State, step: Step)
    requires Enabled(s, step)
    ensures var n := After(s, step);
            n.refused + Total(n.tally) - n.attempts - n.extra - (s.refused + Total(s.tally) - s.attempts - s.extra)
            == (match step
                case Begin => if s.active >= U64_MAX then 0 else -1
                case CountSent(e) => 1
                case CountLost(e) => 1
                case _ => 0)
  {
    hide Lose, Wrapped, Uncounted;
    LoseTotals(s);
  }

  lemma LoseTotals(s: State)
    ensures forall lost :: Total(Lose(s, lost).tally) == Total(s.tally) + 1
    ensures forall lost :: Lose(s, lost).attempts == s.attempts && Lose(s, lost).extra == s.extra
                           && Lose(s, lost).refused == s.refused
  {
    hide Adding;
  }

  lemma KeepsAccounted(s: State, step: Step)
    requires Accounted(s) && Old(s) && Enabled(s, step)
    ensures Accounted(After(s, step))
  {
    hide After, Total, Enabled;
    Uncounting(s, step);
    CountsAfter(s, step);
    if step.Begin? {
      assert s.attempts !in Uncounted(s);
    }
  }

  lemma EmittersAfter(s: State, step: Step)
    requires Enabled(s, step)
    ensures var n := After(s, step); var keys := s.emitters.Keys;
            match step
            case Begin =>
              && s.attempts !in keys
              && (if s.active >= U64_MAX then n.emitters.Keys == keys && n.active == s.active
                  else n.emitters.Keys == keys + {s.attempts} && n.active == s.active + 1)
            case Leave(e) => e in keys && n.emitters.Keys == keys - {e} && n.active == s.active - 1
            case _ => n.emitters.Keys == keys && n.active == s.active
  {
    hide Lose, Wrapped, Uncounted;
    LoseKeeps(s);
  }

  lemma LoseKeeps(s: State)
    ensures forall lost :: Lose(s, lost).emitters == s.emitters && Lose(s, lost).active == s.active
                           && Lose(s, lost).sequence == s.sequence && Lose(s, lost).got == s.got
  {
  }

  lemma KeepsActive(s: State, step: Step)
    requires ActiveIsExact(s) && Enabled(s, step)
    ensures ActiveIsExact(After(s, step))
  {
    hide After, Enabled;
    EmittersAfter(s, step);
    assert |After(s, step).emitters| == |After(s, step).emitters.Keys| && |s.emitters| == |s.emitters.Keys|;
  }

  lemma RefusedAfter(s: State, step: Step)
    requires Enabled(s, step)
    ensures var n := After(s, step);
            && n.attempts == s.attempts + (if step.Begin? then 1 else 0)
            && (n.refused > 0 ==> s.refused > 0 || (step.Begin? && s.active >= U64_MAX))
  {
    hide Adding, Wrapped;
  }

  lemma KeepsOld(s: State, step: Step)
    requires ActiveIsExact(s) && Old(s) && Enabled(s, step)
    ensures Old(After(s, step))
  {
    hide After, Enabled;
    RefusedAfter(s, step);
    EmittersAfter(s, step);
    KeepsActive(s, step);
    assert forall e :: e in After(s, step).emitters ==> e in After(s, step).emitters.Keys;
    assert |After(s, step).emitters| == |After(s, step).emitters.Keys| && |s.emitters| == |s.emitters.Keys|;
  }

  lemma SendingAfter(s: State, step: Step)
    requires Enabled(s, step)
    ensures var u := Sending(After(s, step));
            match step
            case Send(e) =>
              e !in Sending(s)
              && u == if s.disconnected || |s.queue| >= QUEUED_EVENTS then Sending(s) else Sending(s) + {e}
            case CountSent(e) => e in Sending(s) && u == Sending(s) - {e}
            case _ => u == Sending(s)
  {
  }

  lemma KeepsConserved(s: State, step: Step)
    requires Conserved(s) && Enabled(s, step)
    ensures Conserved(After(s, step))
  {
    SendingAfter(s, step);
  }

  lemma WrapsOn(n: nat)
    ensures Wrapped(Wrap64(n)) == Wrap64(n + 1) && Saturated(Cap64(n)) == Cap64(n + 1)
  {
  }

  lemma KeepsFaithful(s: State, step: Step)
    requires Faithful(s) && Enabled(s, step)
    ensures Faithful(After(s, step))
  {
    hide Wrapped, Wrap64, Saturated, Cap64;
    WrapsOn(s.tally.enqueued);
    WrapsOn(s.tally.dequeued);
    WrapsOn(s.tally.full);
    WrapsOn(s.tally.closed);
    WrapsOn(s.tally.encoding);
    WrapsOn(s.tally.exhausted);
  }

  lemma LogAfter(s: State, step: Step)
    requires Enabled(s, step)
    ensures Log(After(s, step)) ==
            if step.Send? && !s.disconnected && |s.queue| < QUEUED_EVENTS then
              Log(s) + [s.emitters[step.e].sequence]
            else
              Log(s)
  {
  }

  lemma KeepsNumbersInLog(s: State, step: Step)
    requires Numbered(s) && Enabled(s, step)
    ensures Distinct(After(s, step))
  {
    hide Log, Wrapped, Saturated, Adding, Tallying;
    LogAfter(s, step);
  }

  /** A step leaves every other emitter's number alone, and gives out only the next one. */
  lemma NumberAfter(s: State, step: Step, e: nat)
    requires Enabled(s, step) && e in After(s, step).emitters
    ensures SequenceOf(After(s, step).emitters[e]).Some? ==> e in s.emitters
    ensures var n := SequenceOf(After(s, step).emitters[e]);
            n.Some? ==> n == SequenceOf(s.emitters[e]) || (step == TakeSequence(e) && n == Some(s.sequence))
  {
    hide Log, Wrapped, Lose;
    LoseKeeps(s);
  }

  lemma KeepsNumbersHeld(s: State, step: Step)
    requires Held(s) && Distinct(s) && Apart(s) && Enabled(s, step)
    ensures Held(After(s, step))
  {
    hide After, Enabled, Log, SequenceOf;
    var n := After(s, step);
    SequenceAfter(s, step);
    LogAfter(s, step);
    forall e | e in n.emitters && SequenceOf(n.emitters[e]).Some?
      ensures 1 <= SequenceOf(n.emitters[e]).value < n.sequence && SequenceOf(n.emitters[e]).value !in Log(n)
    {
      NumberAfter(s, step, e);
      if step.Send? {
        SentBySomebodyElse(s, step, e);
      }
    }
  }

  /** The next number to give out only ever grows, and by one where one is given out. */
  lemma SequenceAfter(s: State, step: Step)
    requires Distinct(s) && Enabled(s, step)
    ensures After(s, step).sequence >= s.sequence
    ensures forall e :: step == TakeSequence(e) && SequenceOf(After(s, step).emitters[e]).Some? ==>
              After(s, step).sequence == s.sequence + 1
  {
    hide Log, Wrapped, Lose;
    LoseKeeps(s);
  }

  /** What goes into the channel leaves its emitter without a number, so no other holds it. */
  lemma SentBySomebodyElse(s: State, step: Step, e: nat)
    requires Apart(s) && Enabled(s, step) && e in After(s, step).emitters
    requires SequenceOf(After(s, step).emitters[e]).Some? && step.Send?
    ensures e in s.emitters && SequenceOf(After(s, step).emitters[e]) != Some(s.emitters[step.e].sequence)
  {
    hide Log, Wrapped, Lose;
    assert SequenceOf(s.emitters[step.e]) == Some(s.emitters[step.e].sequence);
  }

  lemma KeepsNumbersApart(s: State, step: Step)
    requires Held(s) && Apart(s) && Enabled(s, step)
    ensures Apart(After(s, step))
  {
    hide After, Enabled, Log, SequenceOf;
    var n := After(s, step);
    forall e, f | e in n.emitters && f in n.emitters && e != f && SequenceOf(n.emitters[e]).Some?
      ensures SequenceOf(n.emitters[e]) != SequenceOf(n.emitters[f])
    {
      NumberAfter(s, step, e);
      NumberAfter(s, step, f);
    }
  }

  lemma KeepsInv(s: State, step: Step)
    requires Inv(s) && Enabled(s, step)
    ensures Inv(After(s, step))
  {
    hide After, Enabled, ActiveIsExact, Accounted, Old, Conserved, Faithful, Distinct, Held, Apart;
    KeepsActive(s, step);
    KeepsAccounted(s, step);
    KeepsOld(s, step);
    KeepsConserved(s, step);
    KeepsFaithful(s, step);
    KeepsNumbersInLog(s, step);
    KeepsNumbersHeld(s, step);
    KeepsNumbersApart(s, step);
  }

  lemma BeginsCounted()
    ensures ActiveIsExact(Begun()) && Old(Begun())
  {
  }

  lemma NobodyYet(s: State)
    requires s.emitters == map[]
    ensures Uncounted(s) == {} && Sending(s) == {}
  {
  }

  lemma BeginsAlone()
    ensures Begun().emitters == map[]
  {
  }

  lemma BeginsUncounted()
    ensures Begun().attempts == 0 && Begun().extra == 0 && Begun().refused == 0 && Total(Begun().tally) == 0
  {
  }

  lemma BeginsEmpty()
    ensures Begun().got == [] && Begun().queue == [] && !Begun().popping && !Begun().disconnected
    ensures Begun().tally.enqueued == 0 && Begun().tally.dequeued == 0
  {
  }

  lemma BeginsAccounted()
    ensures Accounted(Begun())
  {
    hide Begun, Uncounted, Total;
    BeginsAlone();
    BeginsUncounted();
    NobodyYet(Begun());
  }

  lemma BeginsConserved()
    ensures Conserved(Begun())
  {
    hide Begun, Sending;
    BeginsAlone();
    BeginsEmpty();
    NobodyYet(Begun());
  }

  lemma BeginsFaithful()
    ensures Faithful(Begun())
  {
  }

  lemma BeginsNumbered()
    ensures Numbered(Begun())
  {
  }

  lemma BeginsInv()
    ensures Inv(Begun())
  {
    hide Begun, ActiveIsExact, Old, Accounted, Conserved, Faithful, Numbered;
    BeginsCounted();
    BeginsAccounted();
    BeginsConserved();
    BeginsFaithful();
    BeginsNumbered();
  }

  // ---- Whole runs -------------------------------------------------------------------------------

  ghost predicate Runs(s: State, steps: seq<Step>, last: State)
    decreases |steps|
  {
    if steps == [] then
      last == s
    else
      Enabled(s, steps[0]) && Runs(After(s, steps[0]), steps[1..], last)
  }

  lemma {:induction false} RunKeepsInv(s: State, steps: seq<Step>, last: State)
    requires Inv(s) && Runs(s, steps, last)
    ensures Inv(last)
    decreases |steps|
  {
    hide After, Enabled, Inv;
    if steps != [] {
      KeepsInv(s, steps[0]);
      RunKeepsInv(After(s, steps[0]), steps[1..], last);
    }
  }

  /** The receiver is gone and nobody is between the two halves of an emit. */
  predicate Quiet(s: State) {
    s.closed && s.active == 0
  }

  function Reported(dequeued: nat, loss: Loss): nat {
    dequeued + loss.abandoned + loss.full + loss.closed + loss.encoding + loss.exhausted
  }

  /** With `active` at zero no emitter is left, counted or not. */
  lemma QuietIsEmpty(s: State)
    requires Inv(s) && Quiet(s)
    ensures s.emitters == map[] && Uncounted(s) == {} && Sending(s) == {}
  {
    assert |s.emitters.Keys| == |s.emitters|;
    assert s.emitters.Keys == {};
  }

  lemma CountersAreExact(s: State)
    requires Accounted(s) && Old(s) && Conserved(s) && Faithful(s) && s.attempts + s.extra <= U64_MAX
    ensures s.counters == s.tally && s.refused == 0
  {
    hide Uncounted, Sending;
    assert s.tally.dequeued <= |s.got| <= s.tally.enqueued + |Sending(s)|;
    SendingIsUncounted(s);
  }

  lemma SendingIsUncounted(s: State)
    ensures |Sending(s)| <= |Uncounted(s)|
  {
    FewerInAll(Sending(s), Uncounted(s));
  }

  lemma QuietSum(s: State)
    requires Inv(s) && Quiet(s) && s.attempts + s.extra <= U64_MAX
    ensures s.attempts + s.extra == Reported(s.counters.dequeued, Snapshot(s))
    ensures Snapshot(s).abandoned == |s.queue| && s.counters.dequeued == |s.got|
    ensures s.counters.dequeued <= s.counters.enqueued
  {
    hide Uncounted, Sending, Numbered;
    QuietIsEmpty(s);
    CountersAreExact(s);
  }

  /** However the steps of every emitter and of the receiver fall: once the receiver is closed and no
      emitter is active, every attempt was received, left behind in the channel, or lost under
      exactly one name, and the counters say how many of each. */
  lemma ExactAccounting(steps: seq<Step>, last: State)
    requires Runs(Begun(), steps, last) && Quiet(last) && last.attempts + last.extra <= U64_MAX
    ensures last.attempts + last.extra == Reported(last.counters.dequeued, Snapshot(last))
    ensures Snapshot(last).abandoned == |last.queue| && last.counters.dequeued == |last.got|
  {
    hide *;
    BeginsInv();
    RunKeepsInv(Begun(), steps, last);
    QuietSum(last);
  }

  /** No two events that ever went into the channel share a sequence number, and it never holds
      more than its bound. */
  lemma NumbersAreUnique(steps: seq<Step>, last: State)
    requires Runs(Begun(), steps, last)
    ensures forall i, j :: 0 <= i < j < |Log(last)| ==> Log(last)[i] != Log(last)[j]
    ensures |last.queue| <= QUEUED_EVENTS
  {
    hide Runs, Begun, Inv, Log;
    BeginsInv();
    RunKeepsInv(Begun(), steps, last);
    InvIsNumbered(last);
  }

  lemma InvIsNumbered(s: State)
    requires Inv(s)
    ensures forall i, j :: 0 <= i < j < |Log(s)| ==> Log(s)[i] != Log(s)[j]
    ensures |s.queue| <= QUEUED_EVENTS
  {
    hide Log, Sending, Accounted, Faithful, Held, Apart;
  }

  /** The receiver gets them in the order they went in: what it has only ever grows at the end. */
  lemma {:induction false} ReceivedInOrder(s: State, steps: seq<Step>, last: State)
    requires Runs(s, steps, last)
    ensures s.got <= last.got <= Log(last) && Log(s) <= Log(last)
    decreases |steps|
  {
    hide After, Enabled;
    if steps != [] {
      LogAfter(s, steps[0]);
      GotAfter(s, steps[0]);
      ReceivedInOrder(After(s, steps[0]), steps[1..], last);
    }
  }

  lemma GotAfter(s: State, step: Step)
    requires Enabled(s, step)
    ensures s.got <= After(s, step).got
  {
    hide Lose, Wrapped, Log;
    LoseKeeps(s);
  }

  // ---- The point the accounting is read at -----------------------------------------------------------

  /** Emitters that began after the close: they have read it, or will. */
  predicate Hushed(s: State) {
    s.closed && !s.popping
    && forall e :: e in s.emitters ==>
         match s.emitters[e]
         case Activated => true
         case Sequenced(_) => true
         case Losing(lost) => lost == Closed || lost == Exhausted
         case Leaving => true
         case _ => false
  }

  predicate Settled(s: State, t: State) {
    && t.got == s.got && t.queue == s.queue
    && t.counters.enqueued == s.counters.enqueued && t.counters.dequeued == s.counters.dequeued
    && t.counters.full == s.counters.full && t.counters.encoding == s.counters.encoding
    && t.counters.closed >= s.counters.closed && t.counters.exhausted >= s.counters.exhausted
    && t.attempts + t.extra >= s.attempts + s.extra
  }

  predicate Capped(s: State) {
    s.counters.closed <= U64_MAX && s.counters.exhausted <= U64_MAX
  }

  lemma HushedStep(s: State, step: Step)
    requires Hushed(s) && Capped(s) && Enabled(s, step)
    ensures Hushed(After(s, step)) && Capped(After(s, step)) && Settled(s, After(s, step))
  {
    hide Wrapped;
  }

  lemma {:induction false} HushedRun(s: State, steps: seq<Step>, last: State)
    requires Hushed(s) && Capped(s) && Runs(s, steps, last)
    ensures Hushed(last) && Capped(last) && Settled(s, last)
    decreases |steps|
  {
    hide After, Enabled, Hushed, Capped;
    if steps != [] {
      HushedStep(s, steps[0]);
      HushedRun(After(s, steps[0]), steps[1..], last);
    }
  }

  /** What was received, what was left behind, and two of the losses are final the moment the
      receiver is closed and nobody is active: no later emitter can change them. */
  lemma QuietForGood(steps: seq<Step>, quiet: State, more: seq<Step>, last: State)
    requires Runs(Begun(), steps, quiet) && Quiet(quiet) && Runs(quiet, more, last)
    ensures Settled(quiet, last) && Snapshot(last).abandoned == Snapshot(quiet).abandoned
  {
    hide Runs, Settled, Hushed, Capped, Inv;
    BeginsInv();
    RunKeepsInv(Begun(), steps, quiet);
    QuietIsHushed(quiet);
    HushedRun(quiet, more, last);
    SettledAbandoned(quiet, last);
  }

  lemma QuietIsHushed(s: State)
    requires Inv(s) && Quiet(s)
    ensures Hushed(s) && Capped(s)
  {
    hide Numbered, Accounted;
    QuietIsEmpty(s);
  }

  lemma SettledAbandoned(s: State, t: State)
    requires Settled(s, t) && Quiet(s) && Hushed(t)
    ensures Snapshot(t).abandoned == Snapshot(s).abandoned
  {
  }

  /** `finish` reads `active` first and the counters after it, one at a time, while new emitters may
      come and be turned away. Whatever it then reports covers every attempt made before, and
      nothing that was not attempted by the last load. */
  lemma ReportIsBetween(steps: seq<Step>, quiet: State, more: seq<Step>, mid: State, rest: seq<Step>, last: State)
    requires Runs(Begun(), steps, quiet) && Quiet(quiet) && Runs(quiet, more, mid) && Runs(mid, rest, last)
    requires last.attempts + last.extra <= U64_MAX
    ensures var report := Snapshot(last).(closed := mid.counters.closed);
            && quiet.attempts + quiet.extra <= Reported(quiet.counters.dequeued, report)
            && Reported(quiet.counters.dequeued, report) <= last.attempts + last.extra
  {
    hide Runs, Hushed, Capped, Inv;
    BeginsInv();
    RunKeepsInv(Begun(), steps, quiet);
    RunKeepsInv(quiet, more, mid);
    RunKeepsInv(mid, rest, last);
    QuietIsHushed(quiet);
    HushedRun(quiet, more, mid);
    HushedRun(mid, rest, last);
    QuietSum(quiet);
    HushedIsClosed(last);
    AtMostAttempted(last);
  }

  lemma HushedIsClosed(s: State)
    requires Hushed(s)
    ensures s.closed
  {
  }

  lemma AtMostAttempted(s: State)
    requires Inv(s) && s.closed && s.attempts + s.extra <= U64_MAX
    ensures s.counters.enqueued + s.counters.full + s.counters.closed + s.counters.encoding + s.counters.exhausted
            <= s.attempts + s.extra
  {
    hide Uncounted, Sending, Numbered;
    CountersAreExact(s);
  }

  /** Before that moment the two can be the wrong way round: an event can be received and counted
      so before its emitter has counted it sent, which is why the difference saturates. */
  lemma ReceivedBeforeCounted() returns (steps: seq<Step>, last: State)
    ensures Runs(Begun(), steps, last) && last.counters.dequeued > last.counters.enqueued
  {
    var first, mid := OneReady();
    var second;
    second, last := SentAndReceived(mid);
    RunsOn(Begun(), first, mid, second, last);
    steps := first + second;
  }

  lemma OneReady() returns (steps: seq<Step>, last: State)
    ensures Runs(Begun(), steps, last) && last.emitters == map[0 := Ready(1)] && last.counters == Begun().counters
    ensures !last.disconnected && !last.closed && !last.popping && last.queue == []
  {
    var one := After(Begun(), Begin);
    var two := After(one, TakeSequence(0));
    var three := After(two, LoadClosed(0));
    last := After(three, Encode(0, true));
    RunsFirst(three, Encode(0, true), [], last);
    RunsFirst(two, LoadClosed(0), [Encode(0, true)] + [], last);
    RunsFirst(one, TakeSequence(0), [LoadClosed(0)] + ([Encode(0, true)] + []), last);
    steps := [TakeSequence(0)] + ([LoadClosed(0)] + ([Encode(0, true)] + []));
    RunsFirst(Begun(), Begin, steps, last);
    steps := [Begin] + steps;
  }

  lemma SentAndReceived(s: State) returns (steps: seq<Step>, last: State)
    requires s.emitters == map[0 := Ready(1)] && s.counters == Begun().counters
    requires !s.disconnected && !s.closed && !s.popping && s.queue == []
    ensures Runs(s, steps, last) && last.counters.dequeued > last.counters.enqueued
  {
    var one := After(s, Send(0));
    var two := After(one, Pop);
    last := After(two, CountPop);
    RunsFirst(two, CountPop, [], last);
    RunsFirst(one, Pop, [CountPop] + [], last);
    steps := [Pop] + ([CountPop] + []);
    RunsFirst(s, Send(0), steps, last);
    steps := [Send(0)] + steps;
  }

  lemma {:induction false} RunsOn(s: State, steps: seq<Step>, mid: State, more: seq<Step>, last: State)
    requires Runs(s, steps, mid) && Runs(mid, more, last)
    ensures Runs(s, steps + more, last)
    decreases |steps|
  {
    hide After, Enabled;
    if steps == [] {
      assert steps + more == more;
    } else {
      RunsOn(After(s, steps[0]), steps[1..], mid, more, last);
      assert (steps + more)[1..] == steps[1..] + more;
    }
  }

  lemma RunsFirst(s: State, step: Step, steps: seq<Step>, last: State)
    requires Enabled(s, step) && Runs(After(s, step), steps, last)
    ensures Runs(s, [step] + steps, last)
  {
    hide After, Enabled;
    assert ([step] + steps)[1..] == steps;
  }

  // ---- What each loss is counted under --------------------------------------------------------------

  /** Why a step loses an attempt, if it does: the channel is full, the receiver is gone, the event does
      not encode, or the numbers have run out. */
  function Cause(s: State, step: Step): Option<Lost> {
    match step
    case Begin => if s.active >= U64_MAX then Some(Exhausted) else None
    case TakeSequence(_) => if s.sequence == 0 || s.sequence >= U64_MAX then Some(Exhausted) else None
    case LoadClosed(_) => if s.closed then Some(Closed) else None
    case Encode(_, ok) => if ok then None else Some(Encoding)
    case Send(_) =>
      if s.disconnected then Some(Closed) else if |s.queue| == QUEUED_EVENTS then Some(Full) else None
    case CountOutside => Some(Exhausted)
    case _ => None
  }

  /** How many steps of a run lose an attempt so. */
  function Losses(s: State, steps: seq<Step>, lost: Lost): nat
    decreases |steps|
  {
    if steps == [] || !Enabled(s, steps[0]) then 0
    else (if Cause(s, steps[0]) == Some(lost) then 1 else 0) + Losses(After(s, steps[0]), steps[1..], lost)
  }

  function CountOf(c: Counts, lost: Lost): nat {
    match lost
    case Full => c.full
    case Closed => c.closed
    case Encoding => c.encoding
    case Exhausted => c.exhausted
  }

  /** The emitters that have lost their attempt so and not counted it yet. */
  function LosingTo(s: State, lost: Lost): set<nat> {
    set e | e in s.emitters && s.emitters[e] == Losing(lost)
  }

  /** All the losses of one cause there have been: counted, about to be, or turned away at the start. */
  function LostTo(s: State, lost: Lost): nat {
    CountOf(s.tally, lost) + |LosingTo(s, lost)| + if lost == Exhausted then s.refused else 0
  }

  /** The emitter a step may lose the attempt of. */
  function Losers(step: Step): set<nat> {
    match step
    case TakeSequence(e) => {e}
    case LoadClosed(e) => {e}
    case Encode(e, _) => {e}
    case Send(e) => {e}
    case _ => {}
  }

  lemma LosesAlone(s: State, step: Step, lost: Lost, x: nat)
    requires Enabled(s, step) && !step.CountLost? && x !in Losers(step)
    ensures x in After(s, step).emitters && After(s, step).emitters[x] == Losing(lost) <==>
            x in s.emitters && s.emitters[x] == Losing(lost)
  {
    hide Lose, Wrapped;
    LoseKeeps(s);
  }

  lemma LosesOne(s: State, step: Step, lost: Lost, x: nat)
    requires Enabled(s, step) && |s.queue| <= QUEUED_EVENTS && x in Losers(step)
    ensures x in s.emitters && s.emitters[x] != Losing(lost)
    ensures x in After(s, step).emitters
    ensures After(s, step).emitters[x] == Losing(lost) <==> Cause(s, step) == Some(lost)
  {
  }

  lemma LosesNone(s: State, step: Step, lost: Lost, x: nat)
    requires Enabled(s, step) && step.CountLost?
    ensures x in After(s, step).emitters && After(s, step).emitters[x] == Losing(lost) <==>
            x in s.emitters && x != step.e && s.emitters[x] == Losing(lost)
  {
    hide Lose, Wrapped;
    LoseKeeps(s);
  }

  lemma LosingAfter(s: State, step: Step, lost: Lost)
    requires Enabled(s, step) && Old(s) && |s.queue| <= QUEUED_EVENTS
    ensures LosingTo(s, lost) !! Losers(step)
    ensures LosingTo(After(s, step), lost) ==
            if step.CountLost? then LosingTo(s, lost) - {step.e}
            else if Cause(s, step) == Some(lost) then LosingTo(s, lost) + Losers(step) else LosingTo(s, lost)
  {
    hide After, Enabled, Cause, Losers;
    forall x
      ensures x in LosingTo(s, lost) ==> x !in Losers(step)
      ensures x in LosingTo(After(s, step), lost) <==>
              if step.CountLost? then x in LosingTo(s, lost) && x != step.e
              else x in LosingTo(s, lost) || (x in Losers(step) && Cause(s, step) == Some(lost))
    {
      if step.CountLost? {
        NoLosers(step);
        LosesNone(s, step, lost, x);
      } else if x in Losers(step) {
        LosesOne(s, step, lost, x);
      } else {
        LosesAlone(s, step, lost, x);
      }
    }
  }

  lemma NoLosers(step: Step)
    requires step.CountLost?
    ensures Losers(step) == {}
  {
  }

  /** A cause that is an emitter's is that of one emitter. */
  lemma OneLoses(s: State, step: Step, lost: Lost)
    requires Enabled(s, step)
    ensures Cause(s, step) == Some(lost) ==> |Losers(step)| == if step.Begin? || step.CountOutside? then 0 else 1
    ensures step.CountLost? ==> step.e in s.emitters && s.emitters[step.e].Losing? && Cause(s, step).None?
    ensures step.Begin? ==> Cause(s, step) == if s.active >= U64_MAX then Some(Exhausted) else None
    ensures step.CountOutside? ==> Cause(s, step) == Some(Exhausted)
    ensures step.CountRefused? ==> Cause(s, step).None?
  {
  }

  lemma LoseCounts(s: State, lost: Lost)
    ensures forall l :: CountOf(Lose(s, l).tally, lost) == CountOf(s.tally, lost) + if l == lost then 1 else 0
    ensures forall l :: Lose(s, l).refused == s.refused
  {
    hide Adding;
  }

  lemma CountAfter(s: State, step: Step, lost: Lost)
    requires Enabled(s, step)
    ensures CountOf(After(s, step).tally, lost) == CountOf(s.tally, lost)
            + (match step
               case CountLost(e) => if s.emitters[e] == Losing(lost) then 1 else 0
               case CountRefused => if lost == Exhausted then 1 else 0
               case CountOutside => if lost == Exhausted then 1 else 0
               case _ => 0)
    ensures After(s, step).refused == s.refused
            + (match step
               case Begin => if s.active >= U64_MAX then 1 else 0
               case CountRefused => -1
               case _ => 0)
  {
    hide Lose, Wrapped;
    LoseCounts(s, lost);
  }

  lemma LosesByCause(s: State, step: Step, lost: Lost)
    requires Enabled(s, step) && Old(s) && |s.queue| <= QUEUED_EVENTS
    ensures LostTo(After(s, step), lost) == LostTo(s, lost) + if Cause(s, step) == Some(lost) then 1 else 0
  {
    hide After, Enabled, CountOf, Cause, Losers;
    LosingAfter(s, step, lost);
    CountAfter(s, step, lost);
    OneLoses(s, step, lost);
    var u := LosingTo(s, lost);
    assert |u + Losers(step)| == |u| + |Losers(step)|;
    assert Losers(step) == {} ==> u + Losers(step) == u;
  }

  lemma {:induction false} RunLosesByCause(s: State, steps: seq<Step>, last: State, lost: Lost)
    requires Inv(s) && Runs(s, steps, last)
    ensures LostTo(last, lost) == LostTo(s, lost) + Losses(s, steps, lost)
    decreases |steps|
  {
    hide After, Enabled, Inv, LostTo, Cause;
    if steps != [] {
      InvIsOld(s);
      LosesByCause(s, steps[0], lost);
      KeepsInv(s, steps[0]);
      RunLosesByCause(After(s, steps[0]), steps[1..], last, lost);
    }
  }

  lemma InvIsOld(s: State)
    requires Inv(s)
    ensures Old(s) && |s.queue| <= QUEUED_EVENTS
  {
    hide Numbered, Accounted, Faithful;
  }

  /** Every loss is counted, or about to be, under its own cause and no other, on every run; and once the
      receiver is closed and no emitter active, each counter says exactly how many there were. */
  lemma CountedByCause(steps: seq<Step>, last: State, lost: Lost)
    requires Runs(Begun(), steps, last)
    ensures LostTo(last, lost) == Losses(Begun(), steps, lost)
    ensures Quiet(last) && last.attempts + last.extra <= U64_MAX ==>
              CountOf(last.counters, lost) == Losses(Begun(), steps, lost)
  {
    hide Runs, Losses, Inv;
    BeginsInv();
    RunLosesByCause(Begun(), steps, last, lost);
    NobodyLosing(Begun(), lost);
    RunKeepsInv(Begun(), steps, last);
    if Quiet(last) && last.attempts + last.extra <= U64_MAX {
      QuietIsEmpty(last);
      NobodyLosing(last, lost);
      QuietCounters(last);
    }
  }

  lemma NobodyLosing(s: State, lost: Lost)
    requires s.emitters == map[]
    ensures LosingTo(s, lost) == {}
  {
  }

  lemma QuietCounters(s: State)
    requires Inv(s) && s.attempts + s.extra <= U64_MAX
    ensures s.counters == s.tally && s.refused == 0
  {
    hide Uncounted, Sending, Numbered;
    CountersAreExact(s);
  }

  /** A report made while the receiver is there says nothing is abandoned, whatever is in the channel; the
      losses it gives are the counters, each under its own name. */
  lemma ReportWhileOpen(steps: seq<Step>, last: State)
    requires Runs(Begun(), steps, last)
    ensures Close !in steps ==> Snapshot(last).abandoned == 0
    ensures var loss := Snapshot(last);
            && loss.full == CountOf(last.counters, Full) && loss.closed == CountOf(last.counters, Closed)
            && loss.encoding == CountOf(last.counters, Encoding)
            && loss.exhausted == CountOf(last.counters, Exhausted)
  {
    ReceiverDid(Begun(), steps, last);
  }

  /** Closed and disconnected are what the run has done, and what was received is as many events as the
      receiver took. */
  lemma {:induction false} ReceiverDid(s: State, steps: seq<Step>, last: State)
    requires Runs(s, steps, last)
    ensures last.closed <==> s.closed || Close in steps
    ensures last.disconnected <==> s.disconnected || Disconnect in steps
    ensures |last.got| == |s.got| + Pops(steps)
    decreases |steps|
  {
    hide After, Enabled;
    if steps != [] {
      ReceiverDoes(s, steps[0]);
      ReceiverDid(After(s, steps[0]), steps[1..], last);
      assert steps == [steps[0]] + steps[1..];
    }
  }

  function Pops(steps: seq<Step>): nat {
    if steps == [] then 0 else (if steps[0].Pop? then 1 else 0) + Pops(steps[1..])
  }

  lemma ReceiverDoes(s: State, step: Step)
    requires Enabled(s, step)
    ensures After(s, step).closed == (s.closed || step.Close?)
    ensures After(s, step).disconnected == (s.disconnected || step.Disconnect?)
    ensures |After(s, step).got| == |s.got| + if step.Pop? then 1 else 0
  {
    hide Adding, Tallying, Wrapped;
  }

  // ---- An emitter never waits ------------------------------------------------------------------------

  /** The next step of an emitter, encoding going as it may. */
  function Onward(at: At, e: nat, ok: bool): Step {
    match at
    case Activated => TakeSequence(e)
    case Sequenced(_) => LoadClosed(e)
    case Open(_) => Encode(e, ok)
    case Ready(_) => Send(e)
    case Sent => CountSent(e)
    case Losing(_) => CountLost(e)
    case Leaving => Leave(e)
  }

  function Left(at: At): nat {
    match at
    case Activated => 6
    case Sequenced(_) => 5
    case Open(_) => 4
    case Ready(_) => 3
    case Sent => 2
    case Losing(_) => 2
    case Leaving => 1
  }

  lemma MayGoOn(s: State, e: nat, ok: bool)
    requires Inv(s) && e in s.emitters
    ensures Enabled(s, Onward(s.emitters[e], e, ok))
  {
    hide Accounted, Old, Conserved, Faithful, Numbered;
    assert s.active > 0 by {
      assert |s.emitters| > 0;
    }
  }

  lemma OneOnward(s: State, e: nat, ok: bool)
    requires e in s.emitters && Enabled(s, Onward(s.emitters[e], e, ok))
    ensures var s' := After(s, Onward(s.emitters[e], e, ok));
            if s.emitters[e].Leaving? then e !in s'.emitters
            else e in s'.emitters && Left(s'.emitters[e]) < Left(s.emitters[e])
  {
    hide Lose, Wrapped;
    LoseKeeps(s);
  }

  lemma OnwardAlone(s: State, e: nat, ok: bool)
    requires e in s.emitters && Enabled(s, Onward(s.emitters[e], e, ok))
    ensures var s' := After(s, Onward(s.emitters[e], e, ok));
            s'.closed == s.closed && s'.emitters.Keys - {e} == s.emitters.Keys - {e}
  {
    hide After, Enabled, Left;
    var step := Onward(s.emitters[e], e, ok);
    EmittersAfter(s, step);
    ReceiverDoes(s, step);
  }

  /** Whatever everybody else is at, an emitter comes to its end in at most six steps of its own. */
  lemma {:induction false} NeverWaits(s: State, e: nat, ok: bool) returns (steps: seq<Step>, last: State)
    requires Inv(s) && e in s.emitters
    ensures Runs(s, steps, last) && |steps| <= Left(s.emitters[e]) <= 6
    ensures last.emitters.Keys == s.emitters.Keys - {e} && last.closed == s.closed
    decreases Left(s.emitters[e])
  {
    hide After, Enabled, Inv;
    var step := Onward(s.emitters[e], e, ok);
    MayGoOn(s, e, ok);
    OneOnward(s, e, ok);
    OnwardAlone(s, e, ok);
    KeepsInv(s, step);
    var next := After(s, step);
    var rest: seq<Step> := [];
    if s.emitters[e].Leaving? {
      last := next;
      assert last.emitters.Keys == last.emitters.Keys - {e};
    } else {
      rest, last := NeverWaits(next, e, ok);
    }
    RunsFirst(s, step, rest, last);
    steps := [step] + rest;
  }

  /** An emitter may begin at any moment, the receiver may go away between any two of its takings, and the
      channel with it whatever is still in it. */
  lemma AnybodyAnytime(s: State)
    requires Inv(s)
    ensures Enabled(s, Begin) && Enabled(s, CountOutside)
    ensures Enabled(s, Close) <==> !s.closed && !s.popping
    ensures Enabled(s, Disconnect) <==> s.closed && !s.disconnected
    ensures Enabled(s, Pop) <==> !s.closed && !s.popping && s.queue != []
  {
    hide ActiveIsExact, Accounted, Conserved, Faithful, Numbered;
  }

  lemma {:induction false} AllLeave(s: State, ok: bool) returns (steps: seq<Step>, last: State)
    requires Inv(s)
    ensures Runs(s, steps, last) && last.emitters == map[] && last.closed == s.closed
    decreases |s.emitters.Keys|
  {
    hide Runs, After, Enabled, Inv;
    if s.emitters.Keys == {} {
      NoSteps(s);
      steps, last := [], s;
    } else {
      var e :| e in s.emitters.Keys;
      var first, mid := NeverWaits(s, e, ok);
      RunKeepsInv(s, first, mid);
      var rest;
      rest, last := AllLeave(mid, ok);
      RunsOn(s, first, mid, rest, last);
      steps := first + rest;
    }
  }

  lemma NoSteps(s: State)
    ensures Runs(s, [], s)
  {
  }

  /** From every reachable state the moment the accounting is read at can be come to: the receiver closes and
      the emitters that are under way leave, none waiting for another. */
  lemma QuietCanCome(s: State) returns (steps: seq<Step>, last: State)
    requires Inv(s)
    ensures Runs(s, steps, last) && Quiet(last)
  {
    hide Runs, Inv, After, Enabled;
    var first, mid := CanClose(s);
    RunKeepsInv(s, first, mid);
    var rest;
    rest, last := AllLeave(mid, true);
    RunsOn(s, first, mid, rest, last);
    steps := first + rest;
    RunKeepsInv(mid, rest, last);
    NobodyActive(last);
  }

  lemma NobodyActive(s: State)
    requires Inv(s) && s.emitters == map[]
    ensures s.active == 0
  {
    hide Accounted, Old, Conserved, Faithful, Numbered;
  }

  lemma CanClose(s: State) returns (steps: seq<Step>, last: State)
    requires Inv(s)
    ensures Runs(s, steps, last) && last.closed
  {
    hide ActiveIsExact, Accounted, Old, Faithful, Numbered, Wrapped;
    steps, last := [], s;
    if s.popping {
      last := After(s, CountPop);
      RunsFirst(s, CountPop, [], last);
      steps := [CountPop] + [];
    }
    if !last.closed {
      var mid := last;
      last := After(mid, Close);
      RunsFirst(mid, Close, [], last);
      RunsOn(s, steps, mid, [Close] + [], last);
      steps := steps + ([Close] + []);
    }
  }

  // ---- The buffer one event is encoded into ------------------------------------------------------------

  const MAX_EVENT_BYTES := 4096

  /** All the pieces an encoder writes, end to end. */
  function Joined(pieces: seq<seq<bv8>>): seq<bv8> {
    if pieces == [] then [] else pieces[0] + Joined(pieces[1..])
  }

  class Encoded {
    const bytes: array<bv8>
    var len: nat

    ghost predicate Valid() reads this {
      bytes.Length == MAX_EVENT_BYTES && len <= MAX_EVENT_BYTES
    }

    ghost function Contents(): seq<bv8>
      requires Valid()
      reads this, bytes
    {
      bytes[..len]
    }

    constructor ()
      ensures Valid() && fresh(bytes) && Contents() == []
    {
      bytes := new bv8[MAX_EVENT_BYTES];
      len := 0;
    }

    /** All of `piece` or none of it. */
    method Write(piece: seq<bv8>) returns (ok: bool)
      requires Valid()
      modifies this`len, bytes
      ensures Valid() && ok == (|old(Contents())| + |piece| <= MAX_EVENT_BYTES)
      ensures Contents() == if ok then old(Contents()) + piece else old(Contents())
    {
      ok := |piece| <= bytes.Length - len;
      if ok {
        forall i | 0 <= i < |piece| {
          bytes[len + i] := piece[i];
        }
        len := len + |piece|;
      }
    }

    /** An event fits exactly when its whole encoding does, however the encoder cuts it up; what is
        in the buffer is never more than what was written, in order. */
    method WriteAll(pieces: seq<seq<bv8>>) returns (ok: bool)
      requires Valid() && Contents() == []
      modifies this`len, bytes
      ensures Valid() && ok == (|Joined(pieces)| <= MAX_EVENT_BYTES)
      ensures if ok then Contents() == Joined(pieces) else Contents() <= Joined(pieces)
    {
      var i := 0;
      ok := true;
      while i < |pieces| && ok
        invariant Valid() && 0 <= i <= |pieces|
        invariant ok ==> Contents() == Joined(pieces[..i])
        invariant !ok ==> |Joined(pieces)| > MAX_EVENT_BYTES && Contents() <= Joined(pieces)
      {
        JoinedOn(pieces, i);
        ok := Write(pieces[i]);
        i := i + 1;
      }
      assert ok ==> pieces[..i] == pieces;
    }
  }

  lemma JoinedFirst(a: seq<seq<bv8>>)
    requires a != []
    ensures Joined(a) == a[0] + Joined(a[1..])
  {
  }

  lemma {:induction false} JoinedAppends(a: seq<seq<bv8>>, b: seq<seq<bv8>>)
    ensures Joined(a + b) == Joined(a) + Joined(b)
  {
    if a == [] {
      assert a + b == b;
    } else {
      JoinedAppends(a[1..], b);
      assert (a + b)[1..] == a[1..] + b && (a + b)[0] == a[0];
      JoinedFirst(a);
      JoinedFirst(a + b);
      hide Joined;
      assert (a[0] + Joined(a[1..])) + Joined(b) == a[0] + (Joined(a[1..]) + Joined(b));
    }
  }

  /** What the first pieces come to, and what is left. */
  lemma JoinedOn(pieces: seq<seq<bv8>>, i: nat)
    requires i < |pieces|
    ensures Joined(pieces[..i + 1]) == Joined(pieces[..i]) + pieces[i]
    ensures Joined(pieces[..i]) <= Joined(pieces)
    ensures |Joined(pieces[..i])| + |pieces[i]| <= |Joined(pieces)|
  {
    assert pieces[..i + 1] == pieces[..i] + [pieces[i]];
    JoinedAppends(pieces[..i], [pieces[i]]);
    assert Joined([pieces[i]]) == pieces[i] + Joined([]);
    JoinedAppends(pieces[..i + 1], pieces[i + 1..]);
    assert pieces[..i + 1] + pieces[i + 1..] == pieces;
  }
}
