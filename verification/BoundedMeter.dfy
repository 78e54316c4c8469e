/** The fixture's admission meter: so many attempts and so many bytes of bodies, everything journalled
    within a bound, and at the end one row that says whether the whole run was clean. Connections run
    at once and can fail, or be aborted, between any two of its operations. */
module BoundedMeter {
  import opened Options
  import opened Sums

  const CAPTURE_LIMIT: nat := 8 * 1024 * 1024
  const JOURNAL_LIMIT: nat := 128 * 1024
  const EVENT_LIMIT: nat := 1024
  const USIZE_MAX: nat := 0xFFFF_FFFF_FFFF_FFFF

  /** A row of the journal: how many bytes it encodes to, and whether writing it succeeds. */
  datatype Row = Row(size: nat, written: bool)

  /** The meter's fields. `captures` holds, under each attempt that has reserved, the size still to be
      captured; `record` is the attempts whose bodies are written, in order. */
  datatype Book = Book(limit: nat, admitted: nat, rejected: nat, responses: nat, captureLimit: nat,
                       reserved: nat, captured: nat, journal: nat, fault: Option<string>,
                       captures: map<nat, Option<nat>>, record: seq<nat>)

  function Opened(limit: nat, captureLimit: nat): Book {
    Book(limit, 0, 0, 0, captureLimit, 0, 0, 0, None, map[], [])
  }

  // ---- Its operations -----------------------------------------------------------------------------------

  function Available(terminal: bool): nat {
    JOURNAL_LIMIT - if terminal then 0 else EVENT_LIMIT
  }

  function Journalled(b: Book, terminal: bool, row: Row): (Book, Result<(), string>) {
    if row.size > EVENT_LIMIT || b.journal + row.size > Available(terminal) then
      (b.(fault := Some("journal_limit")), Err("journal_limit"))
    else if !row.written then
      (b.(journal := b.journal + row.size, fault := Some("journal_io")), Err("journal_io"))
    else
      (b.(journal := b.journal + row.size), Ok(()))
  }

  function Admitted(b: Book, row: Row): (Book, Result<Option<nat>, string>) {
    if b.fault.Some? then (b, Err(b.fault.value))
    else if b.admitted == b.limit then
      var (n, r) := Journalled(b.(rejected := b.rejected + 1), false, row);
      (n, if r.Err? then Err(r.error) else Ok(None))
    else
      var (n, r) := Journalled(b.(admitted := b.admitted + 1), false, row);
      (n, if r.Err? then Err(r.error) else Ok(Some(n.admitted)))
  }

  function CaptureReserved(b: Book, attempt: nat, size: nat, row: Row): (Book, Result<bool, string>)
    requires b.reserved <= b.captureLimit
  {
    if b.fault.Some? then (b, Err(b.fault.value))
    else if attempt == 0 || attempt > b.admitted || attempt in b.captures then
      (b.(fault := Some("capture_sequence")), Err("capture_sequence"))
    else if size + 1 > USIZE_MAX then (b, Err("capture_size_overflow"))
    else if size + 1 > b.captureLimit - b.reserved then
      var (n, r) := Journalled(b.(fault := Some("capture_limit")), false, row);
      (n, if r.Err? then Err(r.error) else Ok(false))
    else
      var (n, r) := Journalled(b.(reserved := b.reserved + size + 1, captures := b.captures[attempt := Some(size)]),
                               false, row);
      (n, if r.Err? then Err(r.error) else Ok(true))
  }

  /** `recorded` is whether writing the body succeeds. */
  function Captured(b: Book, attempt: nat, size: nat, recorded: bool, row: Row): (Book, Result<(), string>) {
    if b.fault.Some? then (b, Err(b.fault.value))
    else if size + 1 > USIZE_MAX then (b, Err("capture_size_overflow"))
    else
      var took := if attempt in b.captures then b.(captures := b.captures[attempt := None]) else b;
      if !(attempt in b.captures && b.captures[attempt] == Some(size)) then
        (took.(fault := Some("unreserved_capture")), Err("unreserved_capture"))
      else if !recorded then (took.(fault := Some("capture_io")), Err("capture_io"))
      else Journalled(took.(captured := b.captured + size + 1, record := b.record + [attempt]), false, row)
  }

  function Responded(b: Book, row: Row): (Book, Result<(), string>) {
    if b.fault.Some? then (b, Err(b.fault.value))
    else Journalled(b.(responses := b.responses + 1), false, row)
  }

  /** A row of at most 1 KiB that leaves the journal within 128 KiB, or within 127 unless it is the last,
      and can be written. */
  predicate Fits(journal: nat, terminal: bool, row: Row) {
    && row.size <= 1024 && row.written
    && journal + row.size <= if terminal then 131_072 else 130_048
  }

  datatype Status = STOPPED | FAIL

  function Cut(reason: string): string {
    if |reason| <= 128 then reason else reason[..128]
  }

  /** The reason the terminal row gives. */
  function Verdict(b: Book, reason: string): Status {
    if Cut(if b.fault.Some? then b.fault.value else reason) == "stopped" then STOPPED else FAIL
  }

  class Meter {
    const limit: nat
    const captureLimit: nat
    var admitted: nat
    var rejected: nat
    var responses: nat
    var reserved: nat
    var captured: nat
    var journal: nat
    var fault: Option<string>
    var captures: map<nat, Option<nat>>
    var record: seq<nat>

    function Fields(): Book
      reads this
    {
      Book(limit, admitted, rejected, responses, captureLimit, reserved, captured, journal, fault, captures, record)
    }

    constructor (limit: nat, captureLimit: nat)
      ensures Fields() == Opened(limit, captureLimit)
    {
      this.limit, this.captureLimit := limit, captureLimit;
      admitted, rejected, responses, reserved, captured, journal := 0, 0, 0, 0, 0, 0;
      fault, captures, record := None, map[], [];
    }

    method Event(terminal: bool, row: Row) returns (r: Result<(), string>)
      modifies this
      ensures (Fields(), r) == Journalled(old(Fields()), terminal, row)
      ensures Sound(old(Fields())) && !terminal ==> Sound(Fields())
      ensures if r.Ok? then fault == old(fault) && journal == old(journal) + row.size else fault == Some(r.error)
      ensures r.Ok? <==> Fits(old(journal), terminal, row)
    {
      SoundRowIf(Fields(), terminal, row);
      if row.size > EVENT_LIMIT || journal + row.size > JOURNAL_LIMIT - (if terminal then 0 else EVENT_LIMIT) {
        fault := Some("journal_limit");
        return Err("journal_limit");
      }
      journal := journal + row.size;
      if !row.written {
        fault := Some("journal_io");
        return Err("journal_io");
      }
      return Ok(());
    }

    method Reserve(row: Row) returns (r: Result<Option<nat>, string>)
      modifies this
      ensures (Fields(), r) == Admitted(old(Fields()), row)
      ensures Sound(old(Fields())) ==> Sound(Fields())
      ensures forall n :: r == Ok(Some(n)) ==>
                n == admitted == old(admitted) + 1 && (Sound(old(Fields())) ==> n <= limit)
      ensures r == Ok(None) ==> old(admitted) == admitted == limit && rejected == old(rejected) + 1
      ensures r.Err? ==> fault == Some(r.error)
      ensures r.Ok? <==> old(fault).None? && Fits(old(journal), false, row)
      ensures r.Ok? ==> (r.value.Some? <==> old(admitted) != limit) && reserved == old(reserved)
                        && captures == old(captures) && responses == old(responses)
    {
      if Sound(Fields()) {
        SoundAdmit(Fields(), row);
      }
      if fault.Some? {
        return Err(fault.value);
      }
      var said: Result<(), string>;
      if admitted == limit {
        rejected := rejected + 1;
        said := Event(false, row);
        return if said.Err? then Err(said.error) else Ok(None);
      }
      admitted := admitted + 1;
      said := Event(false, row);
      return if said.Err? then Err(said.error) else Ok(Some(admitted));
    }

    method ReserveCapture(attempt: nat, size: nat, row: Row) returns (r: Result<bool, string>)
      requires reserved <= captureLimit
      modifies this
      ensures (Fields(), r) == CaptureReserved(old(Fields()), attempt, size, row)
      ensures Sound(old(Fields())) ==> Sound(Fields())
      ensures r == Ok(true) ==> attempt !in old(captures) && reserved == old(reserved) + size + 1 <= captureLimit
                                && attempt in captures && captures[attempt] == Some(size)
      ensures r == Ok(false) ==> old(reserved) + size + 1 > captureLimit && reserved == old(reserved)
                                 && fault == Some("capture_limit")
      ensures r == Ok(true) <==>
                && old(fault).None? && 1 <= attempt <= old(admitted) && attempt !in old(captures)
                && size + 1 <= USIZE_MAX && old(reserved) + size + 1 <= captureLimit && Fits(old(journal), false, row)
      ensures old(fault).None? && (attempt == 0 || attempt > old(admitted) || attempt in old(captures)) ==>
                fault == Some("capture_sequence") && r == Err("capture_sequence") && reserved == old(reserved)
    {
      if Sound(Fields()) {
        SoundReserve(Fields(), attempt, size, row);
      }
      if fault.Some? {
        return Err(fault.value);
      }
      if attempt == 0 || attempt > admitted || attempt in captures {
        fault := Some("capture_sequence");
        return Err("capture_sequence");
      }
      if size + 1 > USIZE_MAX {
        return Err("capture_size_overflow");
      }
      var bytes := size + 1;
      var said: Result<(), string>;
      if bytes > captureLimit - reserved {
        fault := Some("capture_limit");
        said := Event(false, row);
        return if said.Err? then Err(said.error) else Ok(false);
      }
      reserved := reserved + bytes;
      captures := captures[attempt := Some(size)];
      said := Event(false, row);
      return if said.Err? then Err(said.error) else Ok(true);
    }

    method Capture(attempt: nat, size: nat, recorded: bool, row: Row) returns (r: Result<(), string>)
      modifies this
      ensures (Fields(), r) == Captured(old(Fields()), attempt, size, recorded, row)
      ensures Sound(old(Fields())) ==> Sound(Fields())
      ensures r.Ok? ==> attempt in old(captures) && old(captures[attempt]) == Some(size)
                        && record == old(record) + [attempt] && captured == old(captured) + size + 1
      ensures r.Ok? ==> attempt in captures && captures[attempt].None?
      ensures r.Ok? <==>
                && old(fault).None? && size + 1 <= USIZE_MAX && recorded && Fits(old(journal), false, row)
                && attempt in old(captures) && old(captures[attempt]) == Some(size)
    {
      if Sound(Fields()) {
        SoundCapture(Fields(), attempt, size, recorded, row);
      }
      if fault.Some? {
        return Err(fault.value);
      }
      if size + 1 > USIZE_MAX {
        return Err("capture_size_overflow");
      }
      var held: Option<nat> := None;
      if attempt in captures {
        held := captures[attempt];
        captures := captures[attempt := None];
      }
      if held != Some(size) {
        fault := Some("unreserved_capture");
        return Err("unreserved_capture");
      }
      if !recorded {
        fault := Some("capture_io");
        return Err("capture_io");
      }
      record := record + [attempt];
      captured := captured + size + 1;
      r := Event(false, row);
    }

    method Respond(row: Row) returns (r: Result<(), string>)
      modifies this
      ensures (Fields(), r) == Responded(old(Fields()), row)
      ensures Sound(old(Fields())) ==> Sound(Fields())
      ensures r.Ok? ==> fault.None? && responses == old(responses) + 1
      ensures old(fault).Some? ==> r == Err(old(fault).value) && Fields() == old(Fields())
      ensures r.Ok? <==> old(fault).None? && Fits(old(journal), false, row)
    {
      if Sound(Fields()) {
        SoundRespond(Fields(), row);
      }
      if fault.Some? {
        return Err(fault.value);
      }
      responses := responses + 1;
      r := Event(false, row);
    }
  }

  // ---- What the book always keeps -------------------------------------------------------------------------

  /** What each attempt has reserved and not captured, its newline included. */
  function Owed(captures: map<nat, Option<nat>>): map<nat, nat> {
    map a | a in captures && captures[a].Some? :: captures[a].value + 1
  }

  predicate Bounded(b: Book) {
    && b.admitted <= b.limit
    && b.reserved <= b.captureLimit
    && b.journal <= JOURNAL_LIMIT - EVENT_LIMIT
    && (forall a :: a in b.captures ==> 1 <= a <= b.admitted)
  }

  /** Bytes written and bytes reserved and still to come never pass the bytes reserved, and are all
      of them while nothing has gone wrong. */
  ghost predicate Balanced(b: Book) {
    && b.captured + Sum(Owed(b.captures)) <= b.reserved
    && (b.fault.None? ==> b.captured + Sum(Owed(b.captures)) == b.reserved)
  }

  predicate Recorded(b: Book, a: nat) {
    a in b.captures && b.captures[a].None?
  }

  /** Each attempt's body is written at most once. */
  predicate OnceEach(b: Book) {
    && (forall i :: 0 <= i < |b.record| ==> Recorded(b, b.record[i]))
    && (forall i, j :: 0 <= i < j < |b.record| ==> b.record[i] != b.record[j])
  }

  ghost predicate Sound(b: Book) {
    Bounded(b) && Balanced(b) && OnceEach(b)
  }

  lemma OwedOnReserve(captures: map<nat, Option<nat>>, a: nat, size: nat)
    requires a !in captures
    ensures Sum(Owed(captures[a := Some(size)])) == Sum(Owed(captures)) + size + 1
  {
    SumReplaced(Owed(captures), a, size + 1);
    assert Owed(captures[a := Some(size)]) == Owed(captures)[a := size + 1];
  }

  lemma OwedOnTake(captures: map<nat, Option<nat>>, a: nat)
    requires a in captures
    ensures Sum(Owed(captures[a := None])) == Sum(Owed(captures)) - (if captures[a].Some? then captures[a].value + 1 else 0)
  {
    assert Owed(captures[a := None]) == Owed(captures) - {a};
    if captures[a].Some? {
      SumWithout(Owed(captures), a);
    } else {
      assert Owed(captures) - {a} == Owed(captures);
    }
  }

  /** A row of the journal touches nothing but the journal and the fault. */
  lemma JournalKeeps(b: Book, terminal: bool, row: Row)
    ensures var n := Journalled(b, terminal, row).0;
            && n == b.(journal := n.journal, fault := n.fault)
            && (n.fault.None? ==> b.fault.None?) && (Journalled(b, terminal, row).1.Ok? ==> n.fault == b.fault)
            && (b.journal <= Available(terminal) ==> n.journal <= Available(terminal))
  {
  }

  lemma SoundRow(b: Book, row: Row)
    requires Sound(b)
    ensures Sound(Journalled(b, false, row).0)
  {
    hide Journalled;
    JournalKeeps(b, false, row);
  }

  lemma SoundRowIf(b: Book, terminal: bool, row: Row)
    ensures Sound(b) && !terminal ==> Sound(Journalled(b, terminal, row).0)
  {
    if Sound(b) && !terminal {
      SoundRow(b, row);
    }
  }

  lemma SoundAdmit(b: Book, row: Row)
    requires Sound(b)
    ensures Sound(Admitted(b, row).0)
  {
    hide Journalled, Owed;
    if b.fault.None? {
      if b.admitted == b.limit {
        SoundRow(b.(rejected := b.rejected + 1), row);
      } else {
        SoundRow(b.(admitted := b.admitted + 1), row);
      }
    }
  }

  lemma SoundReserve(b: Book, attempt: nat, size: nat, row: Row)
    requires Sound(b)
    ensures Sound(CaptureReserved(b, attempt, size, row).0)
  {
    hide Journalled, Owed;
    if b.fault.None? && 1 <= attempt <= b.admitted && attempt !in b.captures && size + 1 <= USIZE_MAX {
      OwedOnReserve(b.captures, attempt, size);
      if size + 1 > b.captureLimit - b.reserved {
        SoundRow(b.(fault := Some("capture_limit")), row);
      } else {
        SoundRow(b.(reserved := b.reserved + size + 1, captures := b.captures[attempt := Some(size)]), row);
      }
    }
  }

  lemma SoundCapture(b: Book, attempt: nat, size: nat, recorded: bool, row: Row)
    requires Sound(b)
    ensures Sound(Captured(b, attempt, size, recorded, row).0)
  {
    hide Journalled, Owed;
    if attempt in b.captures {
      OwedOnTake(b.captures, attempt);
      if b.captures[attempt] == Some(size) {
        SoundRow(b.(captures := b.captures[attempt := None], captured := b.captured + size + 1,
                    record := b.record + [attempt]), row);
      }
    }
  }

  lemma SoundRespond(b: Book, row: Row)
    requires Sound(b)
    ensures Sound(Responded(b, row).0)
  {
    hide Journalled, Owed;
    if b.fault.None? {
      SoundRow(b.(responses := b.responses + 1), row);
    }
  }

  // ---- Connections at once ------------------------------------------------------------------------------------

  /** How far a connection has got; `attempt` is the number it was admitted under. */
  datatype At =
    | Accepted
    | Holding(attempt: nat)
    | Reading(attempt: nat, size: nat)
    | Taken(attempt: nat)
    | Sent(attempt: nat)
    | Done
    | Failed(why: string)

  /** `answered` is the attempts whose response was counted. */
  datatype State = State(book: Book, conns: map<nat, At>, answered: set<nat>, serving: bool,
                         failure: Option<string>, finished: Option<Status>)

  datatype Step =
    | Accept(c: nat)
    | HangUp(c: nat)
    | Admit(c: nat, row: Row)
    | Reserve(c: nat, size: nat, row: Row)
    | Capture(c: nat, size: nat, recorded: bool, row: Row)
    | Note(c: nat, row: Row)
    | Send(c: nat)
    | Respond(c: nat, row: Row)
    | Break(c: nat, why: string)
    | Collect(c: nat)
    | Halt(failure: Option<string>)
    | Abort(c: nat)
    | Finish(row: Row)

  const WORKERS := 16

  const FAULTS: set<string> := {"journal_limit", "journal_io", "capture_sequence", "capture_limit",
                                "unreserved_capture", "capture_io"}

  /** What a connection of its own can fail with. */
  const WORDS: set<string> := {
    "request_timeout", "attempt_limit", "incomplete_request", "capture_size_overflow", "script_exhausted",
    "script_index", "script lock poisoned", "meter lock poisoned", "discard buffer",
    "connection_task_failed", "unknown rendezvous",
    "rendezvous_timeout", "fixture request exceeds the frame cap", "non-UTF8 fixture request", "early eof",
    "signatures require the Anthropic dialect", "event after Anthropic message_stop",
    "thinking delta follows its signature", "signature without an open thinking block",
    "unknown Anthropic finish reason", "Anthropic counts belong in turn.usage", "invalid fixture split",
    "failed to write whole buffer", "write zero", "unexpected end of file"}

  /** The words a run can fail with: a fault's, the program's own, or the system's, which end in a code
      in brackets. */
  predicate Worded(why: string) {
    why in FAULTS || why in WORDS || (why != "" && why[|why| - 1] == ')')
  }

  predicate Enabled(s: State, step: Step) {
    match step
    case Accept(c) => s.serving && |s.conns| < WORKERS && c !in s.conns
    case HangUp(c) => c in s.conns && s.conns[c].Accepted?
    case Admit(c, _) => c in s.conns && s.conns[c].Accepted?
    case Reserve(c, _, _) => c in s.conns && s.conns[c].Holding? && s.book.reserved <= s.book.captureLimit
    case Capture(c, _, _, _) => c in s.conns && s.conns[c].Reading?
    case Note(c, _) => c in s.conns && s.conns[c].Taken?
    case Send(c) => c in s.conns && s.conns[c].Taken?
    case Respond(c, _) => c in s.conns && s.conns[c].Sent?
    case Break(c, why) => c in s.conns && !s.conns[c].Done? && !s.conns[c].Failed? && Worded(why)
    case Collect(c) => s.serving && c in s.conns && (s.conns[c].Done? || s.conns[c].Failed?)
    case Halt(failure) => s.serving && (failure.Some? ==> Worded(failure.value))
    case Abort(c) => !s.serving && c in s.conns
    case Finish(_) => !s.serving && s.conns == map[] && s.finished.None?
  }

  function Now(s: State, book: Book, c: nat, at: At): State {
    s.(book := book, conns := s.conns[c := at])
  }

  function After(s: State, step: Step): State
    requires Enabled(s, step)
  {
    match step
    case Accept(c) => Now(s, s.book, c, Accepted)
    case HangUp(c) => Now(s, s.book, c, Done)
    case Admit(c, row) =>
      var (b, r) := Admitted(s.book, row);
      Now(s, b, c, match r case Err(why) => Failed(why) case Ok(None) => Failed("attempt_limit")
                           case Ok(Some(attempt)) => Holding(attempt))
    case Reserve(c, size, row) =>
      var attempt := s.conns[c].attempt;
      var (b, r) := CaptureReserved(s.book, attempt, size, row);
      Now(s, b, c, match r case Err(why) => Failed(why)
                           case Ok(room) => if room then Reading(attempt, size) else Failed("capture_limit"))
    case Capture(c, size, recorded, row) =>
      var attempt := s.conns[c].attempt;
      var (b, r) := Captured(s.book, attempt, size, recorded, row);
      Now(s, b, c, match r case Err(why) => Failed(why) case Ok(_) => Taken(attempt))
    case Note(c, row) =>
      var (b, r) := Journalled(s.book, false, row);
      Now(s, b, c, match r case Err(why) => Failed(why) case Ok(_) => s.conns[c])
    case Send(c) => Now(s, s.book, c, Sent(s.conns[c].attempt))
    case Respond(c, row) =>
      var (b, r) := Responded(s.book, row);
      Now(s, b, c, match r case Err(why) => Failed(why) case Ok(_) => Done).(
        answered := if s.book.fault.None? then s.answered + {s.conns[c].attempt} else s.answered)
    case Break(c, why) => Now(s, s.book, c, Failed(why))
    case Collect(c) =>
      var at := s.conns[c];
      s.(conns := s.conns - {c}, serving := !at.Failed?, failure := if at.Failed? then Some(at.why) else s.failure)
    case Halt(failure) => s.(serving := false, failure := failure)
    case Abort(c) => s.(conns := s.conns - {c})
    case Finish(row) =>
      var (b, r) := Journalled(s.book, true, row);
      s.(book := b, finished := if r.Ok? then Some(Verdict(s.book, Reason(s.book, s.failure))) else None)
  }

  /** What the run itself comes back with. */
  function Failure(b: Book, failure: Option<string>): Option<string> {
    if failure.Some? then failure
    else if b.fault.Some? then b.fault
    else if b.rejected > 0 then Some("attempt_limit")
    else if b.admitted != b.responses then Some("shutdown_with_incomplete_requests")
    else None
  }

  function Reason(b: Book, failure: Option<string>): string {
    if b.fault.Some? then b.fault.value
    else if b.rejected > 0 then "attempt_limit"
    else if Failure(b, failure).Some? then Failure(b, failure).value
    else "stopped"
  }

  function AttemptOf(at: At): Option<nat> {
    match at
    case Holding(a) => Some(a)
    case Reading(a, _) => Some(a)
    case Taken(a) => Some(a)
    case Sent(a) => Some(a)
    case _ => None
  }

  /** Every connection has a number of its own, given out and not answered yet. */
  predicate Apart(s: State) {
    && (forall c :: c in s.conns && AttemptOf(s.conns[c]).Some? ==>
          1 <= AttemptOf(s.conns[c]).value <= s.book.admitted && AttemptOf(s.conns[c]).value !in s.answered)
    && (forall c, d :: c in s.conns && d in s.conns && c != d && AttemptOf(s.conns[c]).Some? ==>
          AttemptOf(s.conns[c]) != AttemptOf(s.conns[d]))
  }

  predicate Counted(s: State) {
    && |s.answered| == s.book.responses
    && (forall a :: a in s.answered ==> 1 <= a <= s.book.admitted)
  }

  /** Nothing is answered whose body is not on record. */
  predicate OnRecord(s: State) {
    && (forall a :: a in s.answered ==> a in s.book.record)
    && (forall c :: c in s.conns && (s.conns[c].Taken? || s.conns[c].Sent?) ==> s.conns[c].attempt in s.book.record)
  }

  predicate KnownFault(b: Book) {
    b.fault.Some? ==> b.fault.value in FAULTS
  }

  predicate Wordings(s: State) {
    && (s.failure.Some? ==> Worded(s.failure.value))
    && (forall c :: c in s.conns && s.conns[c].Failed? ==> Worded(s.conns[c].why))
  }

  ghost predicate Inv(s: State) {
    Wordings(s) && Sound(s.book) && KnownFault(s.book) && Apart(s) && Counted(s) && OnRecord(s)
  }

  lemma KeepsSound(s: State, step: Step)
    requires Sound(s.book) && Enabled(s, step) && !step.Finish?
    ensures Sound(After(s, step).book)
  {
    hide Sound, Journalled, Admitted, CaptureReserved, Captured, Responded;
    match step
    case Admit(c, row) => SoundAdmit(s.book, row);
    case Reserve(c, size, row) => SoundReserve(s.book, s.conns[c].attempt, size, row);
    case Capture(c, size, recorded, row) => SoundCapture(s.book, s.conns[c].attempt, size, recorded, row);
    case Note(c, row) => SoundRow(s.book, row);
    case Respond(c, row) => SoundRespond(s.book, row);
    case _ =>
  }

  lemma KeepsKnownFault(s: State, step: Step)
    requires KnownFault(s.book) && Enabled(s, step)
    ensures KnownFault(After(s, step).book)
  {
  }

  /** An operation refuses in a fault's words, or for a size no machine has. */
  lemma OperationWords(b: Book, attempt: nat, size: nat, recorded: bool, row: Row)
    requires KnownFault(b)
    ensures Admitted(b, row).1.Err? ==> Worded(Admitted(b, row).1.error)
    ensures b.reserved <= b.captureLimit && CaptureReserved(b, attempt, size, row).1.Err? ==>
              Worded(CaptureReserved(b, attempt, size, row).1.error)
    ensures Captured(b, attempt, size, recorded, row).1.Err? ==>
              Worded(Captured(b, attempt, size, recorded, row).1.error)
    ensures Responded(b, row).1.Err? ==> Worded(Responded(b, row).1.error)
    ensures Journalled(b, false, row).1.Err? ==> Worded(Journalled(b, false, row).1.error)
  {
  }

  lemma KeepsWordings(s: State, step: Step)
    requires Wordings(s) && KnownFault(s.book) && Enabled(s, step)
    ensures Wordings(After(s, step))
  {
    hide Admitted, CaptureReserved, Captured, Responded, Journalled, Verdict, Reason, Worded;
    TwoWords();
    match step
    case Admit(_, row) => OperationWords(s.book, 0, 0, true, row);
    case Reserve(c, size, row) => OperationWords(s.book, s.conns[c].attempt, size, true, row);
    case Capture(c, size, recorded, row) => OperationWords(s.book, s.conns[c].attempt, size, recorded, row);
    case Note(_, row) => OperationWords(s.book, 0, 0, true, row);
    case Respond(_, row) => OperationWords(s.book, 0, 0, true, row);
    case _ =>
  }

  lemma TwoWords()
    ensures Worded("attempt_limit") && Worded("capture_limit")
  {
  }

  lemma OperationCounts(b: Book, attempt: nat, size: nat, recorded: bool, row: Row)
    ensures var n := Admitted(b, row).0;
            n.admitted == b.admitted + (if b.fault.None? && b.admitted != b.limit then 1 else 0)
            && n.responses == b.responses && n.record == b.record
    ensures b.reserved <= b.captureLimit ==>
              var n := CaptureReserved(b, attempt, size, row).0;
              n.admitted == b.admitted && n.responses == b.responses && n.record == b.record
    ensures var n := Captured(b, attempt, size, recorded, row).0;
            n.admitted == b.admitted && n.responses == b.responses && b.record <= n.record
    ensures var n := Responded(b, row).0;
            n.admitted == b.admitted && n.responses == b.responses + (if b.fault.None? then 1 else 0)
            && n.record == b.record
  {
  }

  /** What an operation does to the counts the other invariants speak of. */
  lemma CountsAfter(s: State, step: Step)
    requires Enabled(s, step)
    ensures var b, n := s.book, After(s, step).book;
            && n.admitted == b.admitted + (if step.Admit? && b.fault.None? && b.admitted != b.limit then 1 else 0)
            && n.responses == b.responses + (if step.Respond? && b.fault.None? then 1 else 0)
            && b.record <= n.record
  {
    hide Admitted, CaptureReserved, Captured, Responded, Verdict, Reason;
    match step
    case Admit(_, row) => OperationCounts(s.book, 0, 0, true, row);
    case Reserve(c, size, row) => OperationCounts(s.book, s.conns[c].attempt, size, true, row);
    case Capture(c, size, recorded, row) => OperationCounts(s.book, s.conns[c].attempt, size, recorded, row);
    case Respond(_, row) => OperationCounts(s.book, 0, 0, true, row);
    case _ =>
  }

  /** Where each connection is after a step: only the one that took it has moved, and only an
      admission gives out a number, the next. */
  lemma ConnsAfter(s: State, step: Step, c: nat)
    requires Enabled(s, step) && c in After(s, step).conns && AttemptOf(After(s, step).conns[c]).Some?
    ensures c in s.conns
    ensures var a := AttemptOf(After(s, step).conns[c]);
            || (a == AttemptOf(s.conns[c]) && !(step.Respond? && step.c == c))
            || (step.Admit? && step.c == c && s.book.fault.None? && s.book.admitted != s.book.limit
                && a == Some(s.book.admitted + 1))
  {
  }

  lemma AnsweredAfter(s: State, step: Step)
    requires Enabled(s, step)
    ensures After(s, step).answered ==
            if step.Respond? && s.book.fault.None? then s.answered + {s.conns[step.c].attempt} else s.answered
  {
  }

  lemma KeepsApart(s: State, step: Step)
    requires Apart(s) && Counted(s) && Enabled(s, step)
    ensures Apart(After(s, step))
  {
    hide After;
    var n := After(s, step);
    CountsAfter(s, step);
    AnsweredAfter(s, step);
    forall c | c in n.conns && AttemptOf(n.conns[c]).Some?
      ensures 1 <= AttemptOf(n.conns[c]).value <= n.book.admitted && AttemptOf(n.conns[c]).value !in n.answered
    {
      ConnsAfter(s, step, c);
    }
    forall c, d | c in n.conns && d in n.conns && c != d && AttemptOf(n.conns[c]).Some?
      ensures AttemptOf(n.conns[c]) != AttemptOf(n.conns[d])
    {
      ConnsAfter(s, step, c);
      if AttemptOf(n.conns[d]).Some? {
        ConnsAfter(s, step, d);
      }
    }
  }

  lemma KeepsCounted(s: State, step: Step)
    requires Apart(s) && Counted(s) && Enabled(s, step)
    ensures Counted(After(s, step))
  {
    hide After;
    CountsAfter(s, step);
    AnsweredAfter(s, step);
  }

  lemma RecordAfter(s: State, step: Step, c: nat)
    requires Enabled(s, step) && c in After(s, step).conns
    requires After(s, step).conns[c].Taken? || After(s, step).conns[c].Sent?
    ensures var a := After(s, step).conns[c].attempt;
            a in After(s, step).book.record
            || (c in s.conns && (s.conns[c].Taken? || s.conns[c].Sent?) && s.conns[c].attempt == a)
  {
  }

  lemma KeepsOnRecord(s: State, step: Step)
    requires OnRecord(s) && Enabled(s, step)
    ensures OnRecord(After(s, step))
  {
    hide After;
    var n := After(s, step);
    CountsAfter(s, step);
    AnsweredAfter(s, step);
    forall c | c in n.conns && (n.conns[c].Taken? || n.conns[c].Sent?)
      ensures n.conns[c].attempt in n.book.record
    {
      RecordAfter(s, step, c);
    }
  }

  lemma KeepsInv(s: State, step: Step)
    requires Inv(s) && Enabled(s, step) && !step.Finish?
    ensures Inv(After(s, step))
  {
    hide After, Enabled, Wordings, Sound, KnownFault, Apart, Counted, OnRecord;
    KeepsWordings(s, step);
    KeepsSound(s, step);
    KeepsKnownFault(s, step);
    KeepsApart(s, step);
    KeepsCounted(s, step);
    KeepsOnRecord(s, step);
  }

  // ---- Whole runs -------------------------------------------------------------------------------------------

  /** A meter as it is made, its start row written. */
  function Begun(limit: nat, captureLimit: nat, row: Row): State {
    State(Journalled(Opened(limit, captureLimit), false, row).0, map[], {}, true, None, None)
  }

  /** A run up to its terminal row, which is the last thing written. */
  ghost predicate Runs(s: State, steps: seq<Step>, last: State)
    decreases |steps|
  {
    if steps == [] then
      last == s
    else
      Enabled(s, steps[0]) && !steps[0].Finish? && Runs(After(s, steps[0]), steps[1..], last)
  }

  lemma {:induction false} RunKeepsInv(s: State, steps: seq<Step>, last: State)
    requires Inv(s) && Runs(s, steps, last)
    ensures Inv(last)
    decreases |steps|
  {
    hide After, Enabled, Inv;
    if steps != [] {
      KeepsInv(s, steps[0]);
      RunKeepsInv(After(s, steps[0]), steps[1..], last);
    }
  }

  lemma BeginsInv(limit: nat, captureLimit: nat, row: Row)
    ensures Inv(Begun(limit, captureLimit, row))
  {
    var b := Opened(limit, captureLimit);
    assert Owed(b.captures) == map[];
    SoundRow(b, row);
  }

  lemma {:induction false} NoMoreThan(xs: set<nat>, n: nat)
    requires forall x :: x in xs ==> 1 <= x <= n
    ensures |xs| <= n
    ensures |xs| == n ==> forall x :: 1 <= x <= n ==> x in xs
  {
    if n == 0 {
      assert xs == {};
    } else {
      NoMoreThan(xs - {n}, n - 1);
      if n !in xs {
        assert xs - {n} == xs;
      }
    }
  }

  /** However connections come, fail and are aborted: no more attempts than the limit, under the
      numbers from one on; no more bytes than were reserved, and no more reserved than the limit; each
      attempt's body on record at most once; and no more responses than attempts. */
  lemma EveryRunIsBounded(limit: nat, captureLimit: nat, row: Row, steps: seq<Step>, last: State)
    requires Runs(Begun(limit, captureLimit, row), steps, last)
    ensures Bounded(last.book) && last.book.captured + Sum(Owed(last.book.captures)) <= last.book.reserved
    ensures OnceEach(last.book) && last.book.responses <= last.book.admitted
    ensures Apart(last)
  {
    hide Runs, After, Enabled, Begun;
    BeginsInv(limit, captureLimit, row);
    RunKeepsInv(Begun(limit, captureLimit, row), steps, last);
    NoMoreThan(last.answered, last.book.admitted);
  }

  /** The place kept for it is enough: whatever has been journalled, a terminal row within the bound of
      one row fits, so it is lost only if writing it fails. */
  lemma TerminalRowFits(limit: nat, captureLimit: nat, row: Row, steps: seq<Step>, last: State, terminal: Row)
    requires Runs(Begun(limit, captureLimit, row), steps, last) && terminal.size <= EVENT_LIMIT
    ensures Journalled(last.book, true, terminal).1 == if terminal.written then Ok(()) else Err("journal_io")
    ensures Journalled(last.book, true, terminal).0.journal <= JOURNAL_LIMIT
  {
    hide Runs, After, Enabled, Begun;
    EveryRunIsBounded(limit, captureLimit, row, steps, last);
  }

  lemma CutIsStopped(reason: string)
    ensures Cut(reason) == "stopped" <==> reason == "stopped"
  {
    if |reason| > 128 {
      assert |Cut(reason)| == 128 && |"stopped"| == 7;
    }
  }

  /** No failure is worded so. */
  lemma NoneIsStopped(why: string)
    requires Worded(why)
    ensures why != "stopped"
  {
  }

  /** The verdict, exactly: stopped when there was no fault, nobody was turned away, no connection
      failed and every attempt was answered. */
  lemma VerdictExactly(s: State)
    requires Inv(s)
    ensures Verdict(s.book, Reason(s.book, s.failure)) == STOPPED <==>
            && s.book.fault.None? && s.book.rejected == 0
            && s.failure.None? && s.book.admitted == s.book.responses
  {
    hide Cut, Sound, Apart, Counted, OnRecord, Worded;
    CutIsStopped(Reason(s.book, s.failure));
    if s.book.fault.Some? {
      FaultIsWorded(s.book);
      CutIsStopped(s.book.fault.value);
      NoneIsStopped(s.book.fault.value);
    } else if s.failure.Some? {
      NoneIsStopped(s.failure.value);
    }
    Unlike();
  }

  lemma FaultIsWorded(b: Book)
    requires KnownFault(b) && b.fault.Some?
    ensures Worded(b.fault.value)
  {
  }

  lemma Unlike()
    ensures "attempt_limit" != "stopped" && "shutdown_with_incomplete_requests" != "stopped"
  {
    assert "attempt_limit"[0] == 'a' && "stopped"[0] == 's';
    assert |"shutdown_with_incomplete_requests"| != |"stopped"|;
  }

  lemma NothingOwed(b: Book)
    requires Sound(b) && b.fault.None? && forall a :: 1 <= a <= b.admitted ==> a in b.record
    ensures b.captured == b.reserved
  {
    forall a | a in b.captures
      ensures b.captures[a].None?
    {
      assert a in b.record;
      var i :| 0 <= i < |b.record| && b.record[i] == a;
      assert Recorded(b, b.record[i]);
    }
    assert Owed(b.captures) == map[];
  }

  /** Every attempt's body is on record and its answer was sent. */
  predicate AllDone(s: State) {
    forall a :: 1 <= a <= s.book.admitted ==> a in s.answered && a in s.book.record
  }

  lemma AllAnswered(s: State)
    requires Inv(s)
    ensures s.book.admitted == s.book.responses <==> AllDone(s)
  {
    NoMoreThan(s.answered, s.book.admitted);
    if AllDone(s) {
      AtLeast(s.answered, s.book.admitted);
    }
  }

  lemma {:induction false} AtLeast(xs: set<nat>, n: nat)
    requires forall x :: 1 <= x <= n ==> x in xs
    ensures |xs| >= n
  {
    if n > 0 {
      AtLeast(xs - {n}, n - 1);
    }
  }

  /** A run ends in `STOPPED` if and only if its terminal row could be written and it was clean
      throughout: no fault, nobody turned away, no failure, and every attempt's body recorded and its
      answer sent. Then every byte reserved was captured. */
  lemma StoppedMeansClean(limit: nat, captureLimit: nat, row: Row, steps: seq<Step>, last: State, terminal: Row)
    requires Runs(Begun(limit, captureLimit, row), steps, last) && Enabled(last, Finish(terminal))
    ensures After(last, Finish(terminal)).finished == Some(STOPPED) <==>
            && terminal.size <= EVENT_LIMIT && terminal.written && last.book.fault.None? && last.book.rejected == 0
            && last.failure.None? && AllDone(last)
    ensures After(last, Finish(terminal)).finished == Some(STOPPED) ==> last.book.captured == last.book.reserved
  {
    hide Runs, Begun, Verdict, Reason, AllDone;
    BeginsInv(limit, captureLimit, row);
    RunKeepsInv(Begun(limit, captureLimit, row), steps, last);
    VerdictExactly(last);
    AllAnswered(last);
    if terminal.size <= EVENT_LIMIT {
      TerminalRowFits(limit, captureLimit, row, steps, last, terminal);
    }
    if last.book.fault.None? && AllDone(last) {
      DoneIsCaptured(last);
    }
  }

  lemma DoneIsCaptured(s: State)
    requires Inv(s) && s.book.fault.None? && AllDone(s)
    ensures s.book.captured == s.book.reserved
  {
    NothingOwed(s.book);
  }

  lemma {:induction false} Goes(s: State, steps: seq<Step>, mid: State, step: Step)
    requires Runs(s, steps, mid) && Enabled(mid, step) && !step.Finish?
    ensures Runs(s, steps + [step], After(mid, step))
    decreases |steps|
  {
    hide After, Enabled;
    if steps == [] {
      assert Runs(After(mid, step), [], After(mid, step));
    } else {
      Goes(After(s, steps[0]), steps[1..], mid, step);
      assert (steps + [step])[1..] == steps[1..] + [step];
    }
  }

  lemma RunsNowhere(s: State)
    ensures Runs(s, [], s)
  {
  }

  /** A connection let in: admitted, and room reserved for its body. */
  lemma LetIn(limit: nat, captureLimit: nat, size: nat, row: Row) returns (steps: seq<Step>, last: State)
    requires 0 < limit && size < captureLimit <= USIZE_MAX && row.size <= 128 && row.written
    ensures Runs(Begun(limit, captureLimit, row), steps, last)
    ensures last == State(Opened(limit, captureLimit).(admitted := 1, reserved := size + 1, journal := 3 * row.size,
                                                       captures := map[1 := Some(size)]),
                          map[0 := Reading(1, size)], {}, true, None, None)
  {
    hide Runs;
    var s := Begun(limit, captureLimit, row);
    RunsNowhere(s);
    Goes(s, [], s, Accept(0));
    steps, last := [] + [Accept(0)], After(s, Accept(0));
    Goes(s, steps, last, Admit(0, row));
    steps, last := steps + [Admit(0, row)], After(last, Admit(0, row));
    Goes(s, steps, last, Reserve(0, size, row));
    steps, last := steps + [Reserve(0, size, row)], After(last, Reserve(0, size, row));
    assert last.conns == map[0 := Reading(1, size)];
  }

  /** And there is a run that ends so: one connection is admitted, its body captured, its answer sent, and
      the meter stopped. */
  lemma ACleanRunStops(limit: nat, captureLimit: nat, size: nat, row: Row) returns (steps: seq<Step>, last: State)
    requires 0 < limit && size < captureLimit <= USIZE_MAX && row.size <= 128 && row.written
    ensures Runs(Begun(limit, captureLimit, row), steps, last) && Enabled(last, Finish(row))
    ensures last.book.admitted == last.book.responses == 1 && last.book.captured == size + 1
    ensures last.book.record == [1] && last.answered == {1}
    ensures After(last, Finish(row)).finished == Some(STOPPED)
  {
    hide Runs;
    var s := Begun(limit, captureLimit, row);
    steps, last := LetIn(limit, captureLimit, size, row);
    Goes(s, steps, last, Capture(0, size, true, row));
    steps, last := steps + [Capture(0, size, true, row)], After(last, Capture(0, size, true, row));
    Goes(s, steps, last, Send(0));
    steps, last := steps + [Send(0)], After(last, Send(0));
    Goes(s, steps, last, Respond(0, row));
    steps, last := steps + [Respond(0, row)], After(last, Respond(0, row));
    Goes(s, steps, last, Collect(0));
    steps, last := steps + [Collect(0)], After(last, Collect(0));
    Goes(s, steps, last, Halt(None));
    steps, last := steps + [Halt(None)], After(last, Halt(None));
  }

  // ---- What each step of a connection comes to ------------------------------------------------------------

  /** A connection goes on exactly where the meter grants what it asks; turned away or refused, it has
      failed. */
  lemma GoesOnExactly(s: State, step: Step)
    requires Enabled(s, step)
    ensures match step
            case Admit(c, row) =>
              && (After(s, step).conns[c] == Holding(s.book.admitted + 1) <==>
                  s.book.fault.None? && s.book.admitted != s.book.limit && Fits(s.book.journal, false, row))
              && (After(s, step).conns[c].Holding? || After(s, step).conns[c].Failed?)
            case Reserve(c, size, row) =>
              && (After(s, step).conns[c] == Reading(s.conns[c].attempt, size) <==>
                  && s.book.fault.None? && 1 <= s.conns[c].attempt <= s.book.admitted
                  && s.conns[c].attempt !in s.book.captures && size + 1 <= USIZE_MAX
                  && size + 1 <= s.book.captureLimit - s.book.reserved && Fits(s.book.journal, false, row))
              && (After(s, step).conns[c].Reading? || After(s, step).conns[c].Failed?)
            case Note(c, row) =>
              if Fits(s.book.journal, false, row) then After(s, step).conns[c] == s.conns[c]
              else After(s, step).conns[c].Failed?
            case Respond(c, row) =>
              if s.book.fault.None? && Fits(s.book.journal, false, row) then After(s, step).conns[c] == Done
              else After(s, step).conns[c].Failed?
            case Break(c, why) => After(s, step).conns[c] == Failed(why)
            case _ => true
  {
  }

  lemma CapturesExactly(s: State, c: nat, size: nat, recorded: bool, row: Row)
    requires Enabled(s, Capture(c, size, recorded, row))
    ensures var n := After(s, Capture(c, size, recorded, row));
            var a := s.conns[c].attempt;
            if && s.book.fault.None? && size + 1 <= USIZE_MAX && recorded && Fits(s.book.journal, false, row)
               && a in s.book.captures && s.book.captures[a] == Some(size)
            then n.conns[c] == Taken(a) else n.conns[c].Failed?
  {
  }

  /** What ends the accepting of connections: one that is found to have failed, whose failure the run then
      has, or the program itself. */
  predicate Ends(s: State, step: Step) {
    step.Halt? || (step.Collect? && step.c in s.conns && s.conns[step.c].Failed?)
  }

  lemma EndsExactly(s: State, step: Step)
    requires Enabled(s, step)
    ensures After(s, step).serving <==> s.serving && !Ends(s, step)
    ensures step.Collect? ==> step.c !in After(s, step).conns
    ensures step.Collect? && s.conns[step.c].Failed? ==> After(s, step).failure == Some(s.conns[step.c].why)
    ensures step.Halt? ==> After(s, step).failure == step.failure
    ensures !Ends(s, step) ==> After(s, step).failure == s.failure
  {
    hide Journalled, Admitted, CaptureReserved, Captured, Responded;
  }

  /** A run that has found a connection failed does not come back clean, however it goes on. */
  lemma {:induction false} FailedForGood(s: State, steps: seq<Step>, last: State)
    requires !s.serving && s.failure.Some? && Runs(s, steps, last)
    ensures !last.serving && last.failure == s.failure
    decreases |steps|
  {
    hide After, Enabled, Ends;
    if steps != [] {
      EndedStays(s, steps[0]);
      EndsExactly(s, steps[0]);
      FailedForGood(After(s, steps[0]), steps[1..], last);
    }
  }

  lemma EndedStays(s: State, step: Step)
    requires !s.serving && Enabled(s, step)
    ensures !Ends(s, step)
  {
  }

  /** And once no more are accepted the run can always be brought to its end: whoever is left is aborted. */
  lemma {:induction false} CanAlwaysFinish(s: State, row: Row) returns (steps: seq<Step>, last: State)
    requires !s.serving && s.finished.None?
    ensures Runs(s, steps, last) && Enabled(last, Finish(row)) && last.book == s.book && last.failure == s.failure
    decreases |s.conns|
  {
    if s.conns == map[] {
      steps, last := [], s;
    } else {
      var c :| c in s.conns;
      var next := After(s, Abort(c));
      assert next.conns == s.conns - {c} && |next.conns| < |s.conns| by {
        FewerLeft(s.conns, c);
      }
      var rest;
      rest, last := CanAlwaysFinish(next, row);
      steps := [Abort(c)] + rest;
      assert steps[1..] == rest;
    }
  }

  lemma FewerLeft(conns: map<nat, At>, c: nat)
    requires c in conns
    ensures |conns - {c}| < |conns|
  {
    assert (conns - {c}).Keys == conns.Keys - {c};
    assert |(conns - {c}).Keys| == |conns - {c}| && |conns.Keys| == |conns|;
  }

  /** The reason on the terminal row: the meter's fault before anything, then that somebody was turned away,
      then what the run failed with, then that somebody was not answered. */
  lemma ReasonExactly(s: State)
    ensures s.book.fault.Some? ==> Reason(s.book, s.failure) == s.book.fault.value
    ensures s.book.fault.None? && s.book.rejected > 0 ==> Reason(s.book, s.failure) == "attempt_limit"
    ensures s.book.fault.None? && s.book.rejected == 0 && s.failure.Some? ==>
              Reason(s.book, s.failure) == s.failure.value
    ensures s.book.fault.None? && s.book.rejected == 0 && s.failure.None? ==>
              Reason(s.book, s.failure) ==
              if s.book.admitted == s.book.responses then "stopped" else "shutdown_with_incomplete_requests"
  {
  }

  // ---- So many at once ----------------------------------------------------------------------------------

  /** A new connection is accepted exactly while fewer than sixteen are being worked on. */
  lemma AcceptedExactly(s: State, c: nat)
    requires c !in s.conns && s.serving
    ensures Enabled(s, Accept(c)) <==> |s.conns| < 16
  {
  }

  lemma ConnsCounted(s: State, step: Step)
    requires Enabled(s, step)
    ensures |After(s, step).conns| <= |s.conns| + if step.Accept? then 1 else 0
  {
    hide Journalled, Admitted, CaptureReserved, Captured, Responded, Verdict, Reason;
    var n := After(s, step);
    assert |n.conns.Keys| == |n.conns| && |s.conns.Keys| == |s.conns|;
    match step
    case Accept(c) => assert n.conns.Keys == s.conns.Keys + {c};
    case Collect(c) => FewerLeft(s.conns, c);
    case Abort(c) => FewerLeft(s.conns, c);
    case _ => assert n.conns.Keys == s.conns.Keys;
  }

  /** And so never are more. */
  lemma {:induction false} SixteenAtOnce(s: State, steps: seq<Step>, last: State)
    requires |s.conns| <= 16 && Runs(s, steps, last)
    ensures |last.conns| <= 16
    decreases |steps|
  {
    hide After;
    if steps != [] {
      ConnsCounted(s, steps[0]);
      SixteenAtOnce(After(s, steps[0]), steps[1..], last);
    }
  }
}
