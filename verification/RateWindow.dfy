/** The two rate limits: what a session hears from each sender, kept in memory, and what it sends
    itself, kept in a note that is written out and read back at every call. Both are sliding windows
    over a clock that does not go back. */
module RateWindow {
  import opened Options
  import opened Decimal
  import opened Texts

  const IN_A_WINDOW := 24
  const WINDOW := 60_000

  // ---- A window on a list of times --------------------------------------------------------------------------

  /** `saturating_sub`. */
  function Since(now: nat, at: nat): nat {
    if now < at then 0 else now - at
  }

  /** `retain`: the times still inside the window. */
  function Recent(times: seq<nat>, now: nat): seq<nat> {
    if times == [] then []
    else
      var last := times[|times| - 1];
      Recent(times[..|times| - 1], now) + if Since(now, last) < WINDOW then [last] else []
  }

  predicate Sorted(times: seq<nat>) {
    forall i, j :: 0 <= i < j < |times| ==> times[i] <= times[j]
  }

  predicate Upto(times: seq<nat>, now: nat) {
    forall i :: 0 <= i < |times| ==> times[i] <= now
  }

  /** No twenty-five of them inside one window. */
  predicate Spaced(times: seq<nat>) {
    forall i, j :: 0 <= i && i + IN_A_WINDOW <= j < |times| ==> times[j] - times[i] >= WINDOW
  }

  /** Those from `start` on and before the window starting there ends. */
  function InWindow(times: seq<nat>, start: nat): seq<nat> {
    if times == [] then []
    else
      var last := times[|times| - 1];
      InWindow(times[..|times| - 1], start) + if start <= last < start + WINDOW then [last] else []
  }

  lemma {:induction false} RecentIsTheTail(times: seq<nat>, now: nat)
    requires Sorted(times) && Upto(times, now)
    ensures var r := Recent(times, now);
            && |r| <= |times| && r == times[|times| - |r|..]
            && forall i :: 0 <= i < |times| - |r| ==> now - times[i] >= WINDOW
  {
    if times != [] {
      var front, last := times[..|times| - 1], times[|times| - 1];
      RecentIsTheTail(front, now);
      if now - last >= WINDOW {
        NothingRecent(front, now);
      } else {
        TailGrows(times, Recent(front, now));
      }
    }
  }

  lemma TailGrows(times: seq<nat>, r: seq<nat>)
    requires times != [] && |r| < |times| && r == times[..|times| - 1][|times| - 1 - |r|..]
    ensures r + [times[|times| - 1]] == times[|times| - |r| - 1..]
  {
  }

  lemma {:induction false} NothingRecent(times: seq<nat>, now: nat)
    requires forall i :: 0 <= i < |times| ==> Since(now, times[i]) >= WINDOW
    ensures Recent(times, now) == []
  {
    if times != [] {
      NothingRecent(times[..|times| - 1], now);
    }
  }

  /** What has left the window does not come back: forgetting early changes nothing later. */
  lemma {:induction false} RecentAgain(times: seq<nat>, now: nat, later: nat)
    requires now <= later
    ensures Recent(Recent(times, now), later) == Recent(times, later)
  {
    if times != [] {
      var front, last := times[..|times| - 1], times[|times| - 1];
      RecentAgain(front, now, later);
      if Since(now, last) < WINDOW {
        assert (Recent(front, now) + [last])[..|Recent(front, now)|] == Recent(front, now);
      } else {
        assert Recent(times, now) == Recent(front, now);
      }
    }
  }

  lemma {:induction false} WindowIsTheTail(times: seq<nat>, start: nat)
    requires Sorted(times) && forall i :: 0 <= i < |times| ==> times[i] < start + WINDOW
    ensures var r := InWindow(times, start);
            && |r| <= |times| && r == times[|times| - |r|..]
            && forall i :: 0 <= i < |r| ==> r[i] >= start
  {
    if times != [] {
      var front, last := times[..|times| - 1], times[|times| - 1];
      WindowIsTheTail(front, start);
      if last < start {
        NothingIn(front, start);
      }
    }
  }

  lemma {:induction false} NothingIn(times: seq<nat>, start: nat)
    requires forall i :: 0 <= i < |times| ==> times[i] < start
    ensures InWindow(times, start) == []
  {
    if times != [] {
      NothingIn(times[..|times| - 1], start);
    }
  }

  /** Spaced so, no window anywhere holds more than the cap. */
  lemma {:induction false} SpacedMeansCapped(times: seq<nat>, start: nat)
    requires Sorted(times) && Spaced(times)
    ensures |InWindow(times, start)| <= IN_A_WINDOW
  {
    if times != [] {
      var front, last := times[..|times| - 1], times[|times| - 1];
      if last >= start + WINDOW {
        SpacedMeansCapped(front, start);
      } else {
        WindowIsTheTail(times, start);
        var r := InWindow(times, start);
        assert |r| > 0 ==> r[0] == times[|times| - |r|] && r[|r| - 1] == last;
      }
    }
  }

  lemma {:induction false} InWindowSplits(times: seq<nat>, i: nat, start: nat)
    requires i <= |times|
    ensures InWindow(times, start) == InWindow(times[..i], start) + InWindow(times[i..], start)
  {
    if i == |times| {
      assert times[..i] == times && times[i..] == [];
    } else {
      var front := times[..|times| - 1];
      InWindowSplits(front, i, start);
      assert front[..i] == times[..i] && times[i..][..|times| - i - 1] == front[i..];
    }
  }

  lemma {:induction false} AllInWindow(times: seq<nat>, start: nat)
    requires forall i :: 0 <= i < |times| ==> start <= times[i] < start + WINDOW
    ensures InWindow(times, start) == times
  {
    if times != [] {
      AllInWindow(times[..|times| - 1], start);
    }
  }

  /** Twenty-five of them closer together than a window are in one. */
  lemma CrowdedWindow(times: seq<nat>, i: nat)
    requires Sorted(times) && i + IN_A_WINDOW < |times| && times[i + IN_A_WINDOW] - times[i] < WINDOW
    ensures |InWindow(times, times[i])| > IN_A_WINDOW
  {
    var j, start := i + IN_A_WINDOW + 1, times[i];
    InWindowSplits(times, i, start);
    InWindowSplits(times[i..], IN_A_WINDOW + 1, start);
    assert times[i..][..IN_A_WINDOW + 1] == times[i..j];
    AllInWindow(times[i..j], start);
  }

  /** Spacing twenty-five of them apart is the same as the cap in every window there is. */
  lemma SpacedIsCapped(times: seq<nat>)
    requires Sorted(times)
    ensures Spaced(times) <==> forall start: nat :: |InWindow(times, start)| <= IN_A_WINDOW
  {
    if Spaced(times) {
      forall start: nat
        ensures |InWindow(times, start)| <= IN_A_WINDOW
      {
        SpacedMeansCapped(times, start);
      }
    } else {
      var i, j :| 0 <= i && i + IN_A_WINDOW <= j < |times| && times[j] - times[i] < WINDOW;
      assert times[i + IN_A_WINDOW] <= times[j];
      CrowdedWindow(times, i);
    }
  }

  /** Taking one more while the window is not full keeps it so. */
  lemma OneMoreIsSpaced(times: seq<nat>, now: nat)
    requires Sorted(times) && Upto(times, now) && Spaced(times) && |Recent(times, now)| < IN_A_WINDOW
    ensures Sorted(times + [now]) && Upto(times + [now], now) && Spaced(times + [now])
  {
    RecentIsTheTail(times, now);
  }

  /** And a full window is full of exactly the cap. */
  lemma FullIsExactly(times: seq<nat>, now: nat)
    requires Sorted(times) && Upto(times, now) && Spaced(times)
    ensures |Recent(times, now)| <= IN_A_WINDOW
  {
    RecentIsTheTail(times, now);
    var r := Recent(times, now);
    if r != [] {
      assert r[0] == times[|times| - |r|] && r[|r| - 1] == times[|times| - 1];
      RecentMembers(times, now, r[0]);
    }
  }

  lemma {:induction false} RecentMembers(times: seq<nat>, now: nat, at: nat)
    ensures at in Recent(times, now) ==> Since(now, at) < WINDOW && at in times
  {
    if times != [] {
      RecentMembers(times[..|times| - 1], now, at);
    }
  }

  // ---- What is heard from each sender -------------------------------------------------------------------------

  /** `None` where nobody has been heard from inside the window. */
  function TimesOf(heard: map<string, seq<nat>>, sender: string): seq<nat> {
    if sender in heard then heard[sender] else []
  }

  function Retained(heard: map<string, seq<nat>>, now: nat): map<string, seq<nat>> {
    map s | s in heard && Recent(heard[s], now) != [] :: Recent(heard[s], now)
  }

  /** Whether one more is taken, and what is remembered after. */
  function Heard(heard: map<string, seq<nat>>, sender: string, now: nat): (map<string, seq<nat>>, bool) {
    var kept := Retained(heard, now);
    var times := TimesOf(kept, sender);
    if |times| >= IN_A_WINDOW then (kept[sender := times], false) else (kept[sender := times + [now]], true)
  }

  /** Nobody is remembered but by what is still inside the window. */
  lemma RetainsRecent(heard: map<string, seq<nat>>, now: nat)
    ensures var kept := Retained(heard, now);
            forall s :: s in kept ==> kept[s] != [] && forall i :: 0 <= i < |kept[s]| ==> Since(now, kept[s][i]) < WINDOW
  {
    var kept := Retained(heard, now);
    forall s, i | s in kept && 0 <= i < |kept[s]|
      ensures Since(now, kept[s][i]) < WINDOW
    {
      RecentMembers(heard[s], now, kept[s][i]);
    }
  }

  class Hearing {
    var heard: map<string, seq<nat>>

    constructor ()
      ensures heard == map[]
    {
      heard := map[];
    }

    method HeardFrom(sender: string, now: nat) returns (taken: bool)
      modifies this
      ensures (heard, taken) == Heard(old(heard), sender, now)
      ensures forall other :: other != sender ==> TimesOf(heard, other) == Recent(old(TimesOf(heard, other)), now)
      ensures var before := Recent(old(TimesOf(heard, sender)), now);
              && taken == (|before| < IN_A_WINDOW)
              && TimesOf(heard, sender) == if taken then before + [now] else before
      ensures forall s :: s in heard ==>
                heard[s] != [] && forall i :: 0 <= i < |heard[s]| ==> Since(now, heard[s][i]) < WINDOW
    {
      RetainsRecent(heard, now);
      heard := Retained(heard, now);
      var times := TimesOf(heard, sender);
      if |times| >= IN_A_WINDOW {
        heard := heard[sender := times];
        return false;
      }
      heard := heard[sender := times + [now]];
      return true;
    }
  }

  datatype Call = Call(sender: string, now: nat)

  /** Every call so far: what is remembered, and every time ever taken from each sender. */
  datatype Told = Told(heard: map<string, seq<nat>>, taken: map<string, seq<nat>>)

  function Next(t: Told, c: Call): Told {
    var (heard, taken) := Heard(t.heard, c.sender, c.now);
    Told(heard, if taken then t.taken[c.sender := TimesOf(t.taken, c.sender) + [c.now]] else t.taken)
  }

  function AllTold(calls: seq<Call>): Told {
    if calls == [] then Told(map[], map[]) else Next(AllTold(calls[..|calls| - 1]), calls[|calls| - 1])
  }

  predicate InOrder(calls: seq<Call>) {
    forall i, j :: 0 <= i < j < |calls| ==> calls[i].now <= calls[j].now
  }

  /** The time of the last call. */
  function Clock(calls: seq<Call>): nat {
    if calls == [] then 0 else calls[|calls| - 1].now
  }

  /** What is remembered of a sender is what was taken from it inside the window. */
  predicate Remembers(t: Told, sender: string, now: nat) {
    var times := TimesOf(t.taken, sender);
    && Sorted(times) && Upto(times, now) && Spaced(times)
    && Recent(TimesOf(t.heard, sender), now) == Recent(times, now)
    && TimesOf(t.heard, sender) == Recent(times, now)
  }

  lemma RetainedTimes(heard: map<string, seq<nat>>, sender: string, now: nat)
    ensures TimesOf(Retained(heard, now), sender) == Recent(TimesOf(heard, sender), now)
  {
  }

  lemma RemembersLater(t: Told, sender: string, now: nat, later: nat)
    requires Remembers(t, sender, now) && now <= later
    ensures var times := TimesOf(t.taken, sender);
            && Sorted(times) && Upto(times, later) && Spaced(times)
            && TimesOf(Retained(t.heard, later), sender) == Recent(times, later)
  {
    RetainedTimes(t.heard, sender, later);
    RecentAgain(TimesOf(t.taken, sender), now, later);
  }

  lemma RecentOnce(times: seq<nat>, now: nat)
    ensures Recent(Recent(times, now), now) == Recent(times, now)
  {
    RecentAgain(times, now, now);
  }

  lemma RecentWithNow(times: seq<nat>, now: nat)
    ensures Recent(times + [now], now) == Recent(times, now) + [now]
  {
    assert (times + [now])[..|times|] == times;
  }

  lemma NextRemembers(t: Told, c: Call, sender: string, now: nat)
    requires Remembers(t, sender, now) && now <= c.now
    ensures Remembers(Next(t, c), sender, c.now)
  {
    hide Recent, Sorted, Upto, Spaced;
    RemembersLater(t, sender, now, c.now);
    var times := TimesOf(t.taken, sender);
    RecentOnce(times, c.now);
    if sender == c.sender && |Recent(times, c.now)| < IN_A_WINDOW {
      OneMoreIsSpaced(times, c.now);
      RecentWithNow(times, c.now);
      RecentOnce(times + [c.now], c.now);
    }
  }

  lemma {:induction false} AlwaysRemembers(calls: seq<Call>, sender: string)
    requires InOrder(calls)
    ensures Remembers(AllTold(calls), sender, Clock(calls))
  {
    hide Remembers, Next;
    if calls == [] {
      NothingTold(sender);
    } else {
      var front := calls[..|calls| - 1];
      AlwaysRemembers(front, sender);
      NextRemembers(AllTold(front), calls[|calls| - 1], sender, Clock(front));
    }
  }

  lemma NothingTold(sender: string)
    ensures Remembers(Told(map[], map[]), sender, 0)
  {
  }

  /** Over every history of calls from any number of senders: in no window of a minute were more than
      twenty-four taken from one of them, and the next is refused exactly when twenty-four were taken
      in the minute before it. */
  lemma HearingIsCapped(calls: seq<Call>, sender: string, start: nat, next: Call)
    requires InOrder(calls) && Clock(calls) <= next.now && next.sender == sender
    ensures |InWindow(TimesOf(AllTold(calls).taken, sender), start)| <= IN_A_WINDOW
    ensures !Heard(AllTold(calls).heard, sender, next.now).1 <==>
            |Recent(TimesOf(AllTold(calls).taken, sender), next.now)| == IN_A_WINDOW
  {
    AlwaysRemembers(calls, sender);
    var t := AllTold(calls);
    SpacedMeansCapped(TimesOf(t.taken, sender), start);
    RemembersLater(t, sender, Clock(calls), next.now);
    FullIsExactly(TimesOf(t.taken, sender), next.now);
  }

  // ---- What a session sends ------------------------------------------------------------------------------------

  /** One line of the note: when, and a number two sends can be compared by. */
  datatype Entry = Entry(at: nat, mark: nat)

  function EntryLine(e: Entry): string {
    Written(e.at) + " " + Written(e.mark)
  }

  function NoteOf(held: seq<Entry>): string {
    if held == [] then "" else EntryLine(held[0]) + "\n" + NoteOf(held[1..])
  }

  /** A line that does not say two numbers says nothing. */
  function ReadLine(line: string): Option<Entry> {
    match SplitOnce(Trim(line), ' ')
    case None => None
    case Some((at, mark)) =>
      match (ParseU64(at), ParseU64(mark))
      case (Some(a), Some(m)) => Some(Entry(a, m))
      case _ => None
  }

  function ReadLines(lines: seq<string>): seq<Entry> {
    if lines == [] then []
    else (match ReadLine(lines[0]) case None => [] case Some(e) => [e]) + ReadLines(lines[1..])
  }

  function ReadNote(note: Option<string>): seq<Entry> {
    match note case None => [] case Some(text) => ReadLines(Lines(text))
  }

  function StillIn(held: seq<Entry>, now: nat): seq<Entry> {
    if held == [] then []
    else
      var last := held[|held| - 1];
      StillIn(held[..|held| - 1], now) + if Since(now, last.at) < WINDOW then [last] else []
  }

  predicate Says(held: seq<Entry>, mark: nat) {
    exists i :: 0 <= i < |held| && held[i].mark == mark
  }

  datatype Refusal = SameMessage | TooMany

  /** What is refused leaves the note alone; `listening` is whether the session's own socket answers. */
  function Allowed(note: Option<string>, listening: bool, now: nat, mark: nat): (Option<string>, Result<(), Refusal>) {
    if !listening then (note, Ok(()))
    else
      var held := StillIn(ReadNote(note), now);
      if Says(held, mark) then (note, Err(SameMessage))
      else if |held| >= IN_A_WINDOW then (note, Err(TooMany))
      else (Some(NoteOf(held + [Entry(now, mark)])), Ok(()))
  }

  class Sender {
    var note: Option<string>

    constructor ()
      ensures note == None
    {
      note := None;
    }

    method Allow(listening: bool, now: nat, mark: nat) returns (r: Result<(), Refusal>)
      modifies this
      ensures (note, r) == Allowed(old(note), listening, now, mark)
    {
      if !listening {
        return Ok(());
      }
      var held := StillIn(ReadNote(note), now);
      var n := 0;
      while n < |held|
        invariant 0 <= n <= |held| && forall i :: 0 <= i < n ==> held[i].mark != mark
      {
        if held[n].mark == mark {
          return Err(SameMessage);
        }
        n := n + 1;
      }
      if |held| >= IN_A_WINDOW {
        return Err(TooMany);
      }
      note := Some(NoteOf(held + [Entry(now, mark)]));
      return Ok(());
    }
  }

  /** A line that says nothing is passed over, wherever it stands. */
  lemma {:induction false} JunkIsPassedOver(a: seq<string>, junk: string, b: seq<string>)
    requires ReadLine(junk).None?
    ensures ReadLines(a + [junk] + b) == ReadLines(a) + ReadLines(b)
  {
    hide ReadLine;
    if a == [] {
      assert a + [junk] + b == [junk] + b;
    } else {
      assert (a + [junk] + b)[1..] == a[1..] + [junk] + b;
      JunkIsPassedOver(a[1..], junk, b);
    }
  }

  predicate Fits64(held: seq<Entry>) {
    forall i :: 0 <= i < |held| ==> held[i].at <= U64_MAX && held[i].mark <= U64_MAX
  }

  lemma DigitsOnly(s: string)
    requires AllDigits(s)
    ensures ' ' !in s && '\n' !in s
  {
  }

  lemma ParsesWritten(n: nat)
    requires n <= U64_MAX
    ensures ParseU64(Written(n)) == Some(n)
  {
    ValueOfWritten(n);
    assert IsDigit(Written(n)[0]);
  }

  lemma LineReadsBack(e: Entry)
    requires e.at <= U64_MAX && e.mark <= U64_MAX
    ensures ReadLine(EntryLine(e)) == Some(e) && '\n' !in EntryLine(e)
  {
    hide Trim, SplitOnce, ParseU64;
    var a, m := Written(e.at), Written(e.mark);
    DigitsOnly(a);
    DigitsOnly(m);
    assert IsDigit(a[0]) && IsDigit(m[|m| - 1]);
    NothingToTrim(a + " " + m);
    SplitsOnce(a, m, ' ');
    ParsesWritten(e.at);
    ParsesWritten(e.mark);
  }

  /** What is written is what is read. */
  lemma {:induction false} NoteReadsBack(held: seq<Entry>)
    requires Fits64(held)
    ensures ReadNote(Some(NoteOf(held))) == held
  {
    hide EntryLine, ReadLine, Lines;
    if held == [] {
      NoLines();
    } else {
      LineReadsBack(held[0]);
      FirstLine(EntryLine(held[0]), NoteOf(held[1..]));
      NoteReadsBack(held[1..]);
      var lines := Lines(NoteOf(held));
      assert lines[0] == EntryLine(held[0]) && lines[1..] == Lines(NoteOf(held[1..]));
    }
  }

  lemma NoLines()
    ensures Lines("") == []
  {
  }

  function Times(held: seq<Entry>): seq<nat> {
    seq(|held|, i requires 0 <= i < |held| => held[i].at)
  }

  lemma {:induction false} StillInTimes(held: seq<Entry>, now: nat)
    ensures Times(StillIn(held, now)) == Recent(Times(held), now)
  {
    if held != [] {
      var front := held[..|held| - 1];
      StillInTimes(front, now);
      assert Times(held)[..|held| - 1] == Times(front);
    }
  }

  lemma {:induction false} StillInAgain(held: seq<Entry>, now: nat, later: nat)
    requires now <= later
    ensures StillIn(StillIn(held, now), later) == StillIn(held, later)
  {
    if held != [] {
      var front, last := held[..|held| - 1], held[|held| - 1];
      StillInAgain(front, now, later);
      if Since(now, last.at) < WINDOW {
        assert (StillIn(front, now) + [last])[..|StillIn(front, now)|] == StillIn(front, now);
      } else {
        assert StillIn(held, now) == StillIn(front, now);
      }
    }
  }

  lemma {:induction false} StillSays(held: seq<Entry>, now: nat, i: nat)
    requires i < |held| && Since(now, held[i].at) < WINDOW
    ensures Says(StillIn(held, now), held[i].mark)
  {
    var front, last := held[..|held| - 1], held[|held| - 1];
    var kept := StillIn(front, now);
    if i == |held| - 1 {
      assert (kept + [last])[|kept|] == last;
    } else {
      StillSays(front, now, i);
      var k :| 0 <= k < |kept| && kept[k].mark == held[i].mark;
      assert StillIn(held, now)[k] == kept[k];
    }
  }

  lemma {:induction false} StillInFits(held: seq<Entry>, now: nat)
    requires Fits64(held)
    ensures Fits64(StillIn(held, now))
  {
    if held != [] {
      StillInFits(held[..|held| - 1], now);
    }
  }

  datatype Sending = Sending(listening: bool, now: nat, mark: nat)

  /** Every call so far: the note as it stands, and everything ever let through with it. */
  datatype Log = Log(note: Option<string>, sent: seq<Entry>)

  function NextSent(l: Log, c: Sending): Log {
    var (note, r) := Allowed(l.note, c.listening, c.now, c.mark);
    Log(note, if c.listening && r.Ok? then l.sent + [Entry(c.now, c.mark)] else l.sent)
  }

  function AllSent(calls: seq<Sending>): Log {
    if calls == [] then Log(None, []) else NextSent(AllSent(calls[..|calls| - 1]), calls[|calls| - 1])
  }

  /** A clock and marks of 64 bits, the clock not going back. */
  predicate Orderly(calls: seq<Sending>) {
    && (forall i :: 0 <= i < |calls| ==> calls[i].now <= U64_MAX && calls[i].mark <= U64_MAX)
    && (forall i, j :: 0 <= i < j < |calls| ==> calls[i].now <= calls[j].now)
  }

  function LastNow(calls: seq<Sending>): nat {
    if calls == [] then 0 else calls[|calls| - 1].now
  }

  /** Two sends of the same mark are a window apart. */
  predicate MarksApart(sent: seq<Entry>) {
    forall i, j :: 0 <= i < j < |sent| && sent[i].mark == sent[j].mark ==> sent[j].at - sent[i].at >= WINDOW
  }

  predicate Recalls(l: Log, now: nat) {
    && Fits64(l.sent) && MarksApart(l.sent)
    && Sorted(Times(l.sent)) && Upto(Times(l.sent), now) && Spaced(Times(l.sent))
    && StillIn(ReadNote(l.note), now) == StillIn(l.sent, now)
  }

  lemma TimesAppend(held: seq<Entry>, e: Entry)
    ensures Times(held + [e]) == Times(held) + [e.at]
  {
  }

  lemma StillInLater(a: seq<Entry>, b: seq<Entry>, now: nat, later: nat)
    requires StillIn(a, now) == StillIn(b, now) && now <= later
    ensures StillIn(a, later) == StillIn(b, later)
  {
    StillInAgain(a, now, later);
    StillInAgain(b, now, later);
  }

  lemma StillInWithNow(held: seq<Entry>, e: Entry)
    ensures StillIn(StillIn(held, e.at) + [e], e.at) == StillIn(held + [e], e.at)
  {
    StillInAgain(held, e.at, e.at);
    assert (held + [e])[..|held|] == held;
    assert (StillIn(held, e.at) + [e])[..|StillIn(held, e.at)|] == StillIn(held, e.at);
  }

  lemma NewMarkApart(sent: seq<Entry>, e: Entry)
    requires MarksApart(sent) && Upto(Times(sent), e.at) && !Says(StillIn(sent, e.at), e.mark)
    ensures MarksApart(sent + [e])
  {
    forall i | 0 <= i < |sent| && sent[i].mark == e.mark
      ensures e.at - sent[i].at >= WINDOW
    {
      assert Times(sent)[i] == sent[i].at;
      if Since(e.at, sent[i].at) < WINDOW {
        StillSays(sent, e.at, i);
      }
    }
  }

  lemma UptoLater(times: seq<nat>, now: nat, later: nat)
    requires Upto(times, now) && now <= later
    ensures Upto(times, later)
  {
  }

  lemma NextRecalls(l: Log, c: Sending, now: nat)
    requires Recalls(l, now) && now <= c.now <= U64_MAX && c.mark <= U64_MAX
    ensures Recalls(NextSent(l, c), c.now)
  {
    hide StillIn, ReadNote, NoteOf, Times, Sorted, Upto, Spaced, MarksApart, Says, Recent;
    StillInLater(ReadNote(l.note), l.sent, now, c.now);
    UptoLater(Times(l.sent), now, c.now);
    StillInTimes(l.sent, c.now);
    var held := StillIn(l.sent, c.now);
    var e := Entry(c.now, c.mark);
    TimesLength(held);
    if c.listening && !Says(held, c.mark) && |held| < IN_A_WINDOW {
      OneMoreIsSpaced(Times(l.sent), c.now);
      TimesAppend(l.sent, e);
      NewMarkApart(l.sent, e);
      StillInFits(l.sent, c.now);
      NoteReadsBack(held + [e]);
      StillInWithNow(l.sent, e);
    }
  }

  lemma TimesLength(held: seq<Entry>)
    ensures |Times(held)| == |held|
  {
  }

  lemma NothingSent()
    ensures Recalls(Log(None, []), 0)
  {
  }

  lemma {:induction false} AlwaysRecalls(calls: seq<Sending>)
    requires Orderly(calls)
    ensures Recalls(AllSent(calls), LastNow(calls))
  {
    hide Recalls, NextSent;
    if calls == [] {
      NothingSent();
    } else {
      var front := calls[..|calls| - 1];
      AlwaysRecalls(front);
      NextRecalls(AllSent(front), calls[|calls| - 1], LastNow(front));
    }
  }

  /** Over every history of calls, one after another, those made while the session's own socket answers:
      in no window of a minute did it send more than twenty-four, or the same thing twice; and the next
      is refused as the same message exactly when it was sent within the last minute, and as one too
      many exactly when twenty-four others were. The note between two calls loses nothing of it. While
      the socket does not answer nothing is refused, and nothing counted. */
  lemma SendingIsCapped(calls: seq<Sending>, start: nat, next: Sending)
    requires Orderly(calls) && LastNow(calls) <= next.now
    ensures |InWindow(Times(AllSent(calls).sent), start)| <= IN_A_WINDOW && MarksApart(AllSent(calls).sent)
    ensures var recent := StillIn(AllSent(calls).sent, next.now);
            var r := Allowed(AllSent(calls).note, next.listening, next.now, next.mark).1;
            && (r == Err(SameMessage) <==> next.listening && Says(recent, next.mark))
            && (r == Err(TooMany) <==> next.listening && !Says(recent, next.mark) && |recent| == IN_A_WINDOW)
    ensures !next.listening ==> NextSent(AllSent(calls), next) == AllSent(calls)
  {
    hide StillIn, ReadNote, NoteOf, Times, Sorted, Upto, Spaced, MarksApart, Says, Recent, AllSent, InWindow;
    AlwaysRecalls(calls);
    var l := AllSent(calls);
    StillInLater(ReadNote(l.note), l.sent, LastNow(calls), next.now);
    UptoLater(Times(l.sent), LastNow(calls), next.now);
    SpacedMeansCapped(Times(l.sent), start);
    FullIsExactly(Times(l.sent), next.now);
    StillInTimes(l.sent, next.now);
    TimesLength(StillIn(l.sent, next.now));
  }
}
