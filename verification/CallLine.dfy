/** One accepted connection: a client that makes one call after another and may give up at any byte,
    and a server that answers each call it reads. A reply says nothing of which call it answers, so
    everything rests on the two staying in step, and on a client that has once given up never asking
    again on the same line. */
module CallLine {
  import opened Options
  import opened Framing

  datatype Client = Idle | Writing(rest: seq<Byte>) | Reading(got: seq<Byte>)

  datatype Server = Listening(got: seq<Byte>) | Answering(rest: seq<Byte>, closing: bool) | Gone

  /** `c2s` and `s2c` are the bytes on their way; `calls` the bodies of the calls begun, `heard` those
      the server has read, `meant` what it had to say to each, `answers` what it set out to send, and
      `returned` what the client took for the answer to each. */
  datatype State = State(client: Client, adrift: bool, server: Server, c2s: seq<Byte>, s2c: seq<Byte>,
                         calls: seq<seq<Byte>>, heard: seq<seq<Byte>>, meant: seq<Meant>, answers: seq<seq<Byte>>,
                         returned: seq<seq<Byte>>)

  /** A reply, and what is to be said should it be too long to send. */
  datatype Meant = Meant(reply: seq<Byte>, refusal: seq<Byte>)

  /** `written`: a reply over the cap goes out as the refusal that says so. */
  function Written(reply: seq<Byte>, refusal: seq<Byte>): (body: seq<Byte>)
    requires reply != [] && Sendable(refusal)
    ensures Sendable(body)
    ensures |reply| <= 0x100_0000 ==> body == reply
    ensures |reply| > 0x100_0000 ==> body == refusal
  {
    if |reply| > MOST then refusal else reply
  }

  datatype Step =
    | Call(body: seq<Byte>)
    | Write(n: nat)
    | Read(n: nat)
    | Take(decodes: bool)
    | GiveUp
    | Hear(n: nat)
    | Answer(reply: seq<Byte>, refusal: seq<Byte>, decodes: bool)
    | RefuseFrame(reply: seq<Byte>)
    | Reply(n: nat)
    | Leave

  /** How many bytes `read_exact` still asks for: the rest of the header, then the rest of the body. */
  function Wanted(got: seq<Byte>): nat {
    if |got| < 4 then 4 - |got|
    else match Expecting(got[..4]) case Err(_) => 0 case Ok(n) => if 4 + n > |got| then 4 + n - |got| else 0
  }

  predicate Enabled(s: State, step: Step) {
    match step
    case Call(body) => s.client.Idle? && !s.adrift && body != []
    case Write(n) => s.client.Writing? && 0 < n <= |s.client.rest|
    case Read(n) => s.client.Reading? && 0 < n <= |s.s2c| && n <= Wanted(s.client.got)
    case Take(_) => s.client.Reading? && ReadBody(s.client.got).Body?
    case GiveUp => !s.client.Idle?
    case Hear(n) => s.server.Listening? && 0 < n <= |s.c2s| && n <= Wanted(s.server.got)
    case Answer(reply, refusal, _) =>
      s.server.Listening? && ReadBody(s.server.got).Body? && reply != [] && Sendable(refusal)
    case RefuseFrame(reply) => s.server.Listening? && ReadBody(s.server.got).Unreadable? && Sendable(reply)
    case Reply(n) => s.server.Answering? && 0 < n <= |s.server.rest|
    case Leave => true
  }

  function After(s: State, step: Step): State
    requires Enabled(s, step)
  {
    match step
    case Call(body) =>
      if |body| > MOST then s.(adrift := true)
      else s.(adrift := true, client := Writing(Frame(body)), calls := s.calls + [body])
    case Write(n) =>
      var rest := s.client.rest;
      s.(c2s := s.c2s + rest[..n], client := if n == |rest| then Reading([]) else Writing(rest[n..]))
    case Read(n) => s.(client := Reading(s.client.got + s.s2c[..n]), s2c := s.s2c[n..])
    case Take(decodes) =>
      if decodes then
        s.(client := Idle, adrift := false, returned := s.returned + [ReadBody(s.client.got).body])
      else s.(client := Idle)
    case GiveUp => s.(client := Idle)
    case Hear(n) => s.(server := Listening(s.server.got + s.c2s[..n]), c2s := s.c2s[n..])
    case Answer(reply, refusal, decodes) =>
      var body := Written(reply, refusal);
      s.(server := Answering(Frame(body), !decodes), heard := s.heard + [ReadBody(s.server.got).body],
         meant := s.meant + [Meant(reply, refusal)], answers := s.answers + [body])
    case RefuseFrame(reply) =>
      s.(server := Answering(Frame(reply), true), heard := s.heard + [s.server.got],
         meant := s.meant + [Meant(reply, reply)], answers := s.answers + [reply])
    case Reply(n) =>
      var rest := s.server.rest;
      s.(s2c := s.s2c + rest[..n],
         server := if n < |rest| then Answering(rest[n..], s.server.closing)
                   else if s.server.closing then Gone else Listening([]))
    case Leave => s.(server := Gone)
  }

  function Begun(): State {
    State(Idle, false, Listening([]), [], [], [], [], [], [], [])
  }

  // ---- What keeps the two in step --------------------------------------------------------------------------

  /** What has been heard is what was called, all of it but perhaps the last. */
  predicate Heard(s: State) {
    && |s.answers| == |s.heard| <= |s.calls| <= |s.heard| + 1
    && s.heard == s.calls[..|s.heard|]
    && (forall i :: 0 <= i < |s.calls| ==> Sendable(s.calls[i]))
    && (forall i :: 0 <= i < |s.answers| ==> Sendable(s.answers[i]))
  }

  function LastCall(s: State): seq<Byte>
    requires Heard(s) && s.calls != []
  {
    Frame(s.calls[|s.calls| - 1])
  }

  function LastAnswer(s: State): seq<Byte>
    requires Heard(s) && s.answers != []
  {
    Frame(s.answers[|s.answers| - 1])
  }

  /** The bytes towards the server are part of the one call it has not heard, or none. */
  predicate Upward(s: State) {
    && Heard(s)
    && (s.client.Writing? ==> |s.heard| < |s.calls| && s.client.rest != [])
    && (s.server.Answering? ==> |s.heard| == |s.calls| && s.c2s == [])
    && (s.server.Listening? ==>
          if |s.heard| == |s.calls| then s.server.got == [] && s.c2s == []
          else match s.client
               case Idle => s.server.got + s.c2s <= LastCall(s)
               case Writing(rest) => s.server.got + s.c2s + rest == LastCall(s)
               case Reading(_) => s.server.got + s.c2s == LastCall(s))
  }

  /** The bytes towards a waiting client are the one answer it waits for, or the start of it. */
  predicate Downward(s: State) {
    && Heard(s)
    && (s.server.Answering? ==> s.server.rest != [])
    && (match s.client
        case Idle => !s.adrift ==> s.s2c == [] && !s.server.Answering? && |s.heard| == |s.calls|
        case Writing(_) => s.s2c == []
        case Reading(got) =>
          if |s.heard| < |s.calls| then got == [] && s.s2c == []
          else s.answers != [] &&
               match s.server
               case Listening(_) => got + s.s2c == LastAnswer(s)
               case Answering(rest, _) => got + s.s2c + rest == LastAnswer(s)
               case Gone => got + s.s2c <= LastAnswer(s))
  }

  predicate Returned(s: State) {
    && |s.returned| <= |s.answers|
    && (forall i :: 0 <= i < |s.returned| ==> s.returned[i] == s.answers[i])
    && (s.client.Idle? && !s.adrift ==> |s.returned| == |s.calls|)
    && (!s.client.Idle? ==> s.adrift && |s.returned| == |s.calls| - 1)
  }

  /** What is sent is what was meant wherever that fits a frame. */
  predicate Faithful(s: State) {
    && |s.meant| == |s.answers|
    && (forall k :: 0 <= k < |s.meant| ==>
          s.answers[k] == if |s.meant[k].reply| <= 0x100_0000 then s.meant[k].reply else s.meant[k].refusal)
  }

  predicate Inv(s: State) {
    Upward(s) && Downward(s) && Returned(s) && Faithful(s)
  }

  /** What the server has of a call is no frame until it is the whole call. */
  lemma HearsTheCall(s: State)
    requires Upward(s) && s.server.Listening? && !ReadBody(s.server.got).Short?
    ensures |s.heard| < |s.calls| && s.server.got == LastCall(s) && s.c2s == [] && !s.client.Writing?
    ensures ReadBody(s.server.got) == Body(s.calls[|s.heard|], [])
  {
    if |s.heard| < |s.calls| {
      var body := s.calls[|s.calls| - 1];
      assert s.server.got <= Frame(body);
      if s.server.got != Frame(body) {
        PartIsShort(body, s.server.got);
      }
      FrameReadsBack(body, []);
      assert Frame(body) + [] == Frame(body);
    }
  }

  /** And what the client has of an answer is none until it is the whole answer. */
  lemma TakesTheAnswer(s: State)
    requires Upward(s) && Downward(s) && s.client.Reading? && ReadBody(s.client.got).Body?
    ensures |s.heard| == |s.calls| && s.answers != [] && s.s2c == [] && !s.server.Answering?
    ensures ReadBody(s.client.got) == Body(s.answers[|s.answers| - 1], [])
  {
    var body := if s.answers == [] then [] else s.answers[|s.answers| - 1];
    if |s.heard| == |s.calls| {
      assert s.client.got <= Frame(body);
      if s.client.got != Frame(body) {
        PartIsShort(body, s.client.got);
      }
      FrameReadsBack(body, []);
      assert Frame(body) + [] == Frame(body);
    }
  }

  lemma KeepsUpwardByClient(s: State, step: Step)
    requires Inv(s) && Enabled(s, step)
    requires step.Call? || step.Write? || step.Read? || step.Take? || step.GiveUp?
    ensures Upward(After(s, step))
  {
    hide ReadBody, Frame, Wanted;
    if step.Write? && s.server.Listening? {
      var rest := s.client.rest;
      assert s.server.got + (s.c2s + rest[..step.n]) + rest[step.n..] == s.server.got + s.c2s + rest;
      assert rest[..|rest|] == rest;
    }
    if step.Call? {
      CallHasBytes(step.body);
    }
  }

  lemma CallHasBytes(body: seq<Byte>)
    requires body != []
    ensures |body| <= MOST ==> Sendable(body) && Frame(body) != []
  {
  }

  lemma KeepsUpwardByServer(s: State, step: Step)
    requires Inv(s) && Enabled(s, step)
    requires step.Hear? || step.Answer? || step.RefuseFrame? || step.Reply? || step.Leave?
    ensures Upward(After(s, step))
  {
    hide ReadBody, Frame, Wanted, Expecting;
    if step.Hear? {
      assert s.server.got + s.c2s[..step.n] + s.c2s[step.n..] == s.server.got + s.c2s;
    }
    if step.Answer? || step.RefuseFrame? {
      HearsTheCall(s);
    }
  }

  lemma KeepsDownwardByClient(s: State, step: Step)
    requires Inv(s) && Enabled(s, step)
    requires step.Call? || step.Write? || step.Read? || step.Take? || step.GiveUp?
    ensures Downward(After(s, step))
  {
    hide ReadBody, Frame, Wanted, Expecting;
    if step.Read? {
      assert s.client.got + s.s2c[..step.n] + s.s2c[step.n..] == s.client.got + s.s2c;
    }
    if step.Take? {
      TakesTheAnswer(s);
    }
  }

  lemma KeepsDownwardByServer(s: State, step: Step)
    requires Inv(s) && Enabled(s, step)
    requires step.Hear? || step.Answer? || step.RefuseFrame? || step.Reply? || step.Leave?
    ensures Downward(After(s, step))
  {
    hide ReadBody, Frame, Wanted, Expecting;
    if step.RefuseFrame? {
      HearsTheCall(s);
    } else if step.Answer? {
      HearsTheCall(s);
      var body := Written(step.reply, step.refusal);
      CallHasBytes(body);
      assert [] + [] + Frame(body) == Frame(body);
    }
    if step.Reply? {
      var rest := s.server.rest;
      assert s.s2c + rest[..step.n] + rest[step.n..] == s.s2c + rest;
      assert s.client.Reading? ==>
          s.client.got + (s.s2c + rest[..step.n]) + rest[step.n..] == s.client.got + s.s2c + rest;
      assert rest[..|rest|] == rest;
    }
  }

  lemma KeepsReturned(s: State, step: Step)
    requires Inv(s) && Enabled(s, step)
    ensures Returned(After(s, step))
  {
    hide ReadBody, Frame, Wanted, Expecting;
    if step.Take? {
      TakesTheAnswer(s);
    }
  }

  lemma KeepsFaithful(s: State, step: Step)
    requires Faithful(s) && Enabled(s, step)
    ensures Faithful(After(s, step))
  {
    hide ReadBody, Frame, Wanted, Expecting;
  }

  lemma KeepsInv(s: State, step: Step)
    requires Inv(s) && Enabled(s, step)
    ensures Inv(After(s, step))
  {
    hide After, Enabled, Upward, Downward, Returned, Faithful;
    KeepsFaithful(s, step);
    KeepsReturned(s, step);
    if step.Call? || step.Write? || step.Read? || step.Take? || step.GiveUp? {
      KeepsUpwardByClient(s, step);
      KeepsDownwardByClient(s, step);
    } else {
      KeepsUpwardByServer(s, step);
      KeepsDownwardByServer(s, step);
    }
  }

  // ---- Whole runs -------------------------------------------------------------------------------------------

  ghost predicate Runs(s: State, steps: seq<Step>, last: State)
    decreases |steps|
  {
    if steps == [] then
      last == s
    else
      Enabled(s, steps[0]) && Runs(After(s, steps[0]), steps[1..], last)
  }

  lemma {:induction false} RunKeepsInv(s: State, steps: seq<Step>, last: State)
    requires Inv(s) && Runs(s, steps, last)
    ensures Inv(last)
    decreases |steps|
  {
    hide After, Enabled, Inv;
    if steps != [] {
      KeepsInv(s, steps[0]);
      RunKeepsInv(After(s, steps[0]), steps[1..], last);
    }
  }

  /** On every run, cut at any byte on either side: what the client takes for the answer to a call is
      what the server had to say to that very call, having read it whole and as it was sent, or, where
      that is longer than a frame carries, the refusal in its place; and the server reads nothing that is
      not a call. */
  lemma EveryReplyIsItsCalls(steps: seq<Step>, last: State)
    requires Runs(Begun(), steps, last)
    ensures |last.returned| <= |last.heard| == |last.answers| <= |last.calls|
    ensures forall k :: 0 <= k < |last.heard| ==> last.heard[k] == last.calls[k]
    ensures |last.meant| == |last.heard|
    ensures forall k :: 0 <= k < |last.returned| ==>
              last.returned[k] ==
                if |last.meant[k].reply| <= 0x100_0000 then last.meant[k].reply else last.meant[k].refusal
    ensures last.server.Listening? ==> !ReadBody(last.server.got).Unreadable?
  {
    hide Runs, ReadBody;
    assert Inv(Begun());
    RunKeepsInv(Begun(), steps, last);
    if last.server.Listening? && !ReadBody(last.server.got).Short? {
      HearsTheCall(last);
    }
  }

  /** A client that may call again has every answer it was owed and nothing of any other on the line. */
  lemma NothingLeftToMistake(steps: seq<Step>, last: State, body: seq<Byte>)
    requires Runs(Begun(), steps, last) && Enabled(last, Call(body))
    ensures last.s2c == [] && (last.c2s == [] || last.server.Gone?)
    ensures |last.returned| == |last.calls|
  {
    hide Runs;
    assert Inv(Begun());
    RunKeepsInv(Begun(), steps, last);
  }

  lemma RunsFirst(s: State, step: Step, steps: seq<Step>, last: State)
    requires Enabled(s, step) && Runs(After(s, step), steps, last)
    ensures Runs(s, [step] + steps, last)
  {
    hide After, Enabled;
    assert ([step] + steps)[1..] == steps;
  }

  lemma {:induction false} RunsOn(s: State, steps: seq<Step>, mid: State, more: seq<Step>, last: State)
    requires Runs(s, steps, mid) && Runs(mid, more, last)
    ensures Runs(s, steps + more, last)
    decreases |steps|
  {
    hide After, Enabled;
    if steps == [] {
      assert steps + more == more;
    } else {
      RunsOn(After(s, steps[0]), steps[1..], mid, more, last);
      assert (steps + more)[1..] == steps[1..] + more;
    }
  }

  lemma CallWritten(call: seq<Byte>) returns (last: State)
    requires Sendable(call)
    ensures Runs(Begun(), [Call(call), Write(4 + |call|)], last)
    ensures last == Begun().(client := Reading([]), adrift := true, c2s := Frame(call), calls := [call])
  {
    var one := After(Begun(), Call(call));
    last := After(one, Write(4 + |call|));
    assert one.client == Writing(Frame(call)) && one.calls == [call];
    assert [] + Frame(call)[..4 + |call|] == Frame(call);
    RunsFirst(one, Write(4 + |call|), [], last);
    RunsFirst(Begun(), Call(call), [Write(4 + |call|)] + [], last);
    assert [Call(call)] + ([Write(4 + |call|)] + []) == [Call(call), Write(4 + |call|)];
  }

  lemma CallHeard(s: State, call: seq<Byte>) returns (last: State)
    requires Sendable(call) && s.server == Listening([]) && s.c2s == Frame(call)
    ensures Runs(s, [Hear(4), Hear(|call|)], last)
    ensures last == s.(server := Listening(Frame(call)), c2s := [])
  {
    var frame := Frame(call);
    HeaderSaysLength(|call|);
    assert [] + frame[..4] == Header(|call|) && frame[..4][..4] == frame[..4];
    var one := After(s, Hear(4));
    assert one.c2s == call && one.server.got == Header(|call|) && one.server.got[..4] == Header(|call|);
    last := After(one, Hear(|call|));
    assert Header(|call|) + call[..|call|] == frame;
    RunsFirst(one, Hear(|call|), [], last);
    RunsFirst(s, Hear(4), [Hear(|call|)] + [], last);
    assert [Hear(4)] + ([Hear(|call|)] + []) == [Hear(4), Hear(|call|)];
  }

  lemma AnsweredLate(s: State, call: seq<Byte>, reply: seq<Byte>, refusal: seq<Byte>) returns (last: State)
    requires Sendable(call) && Sendable(reply) && Sendable(refusal) && s.server == Listening(Frame(call)) && s.s2c == []
    requires s.client == Reading([])
    ensures Runs(s, [Answer(reply, refusal, true), GiveUp, Reply(4 + |reply|)], last)
    ensures last == s.(client := Idle, server := Listening([]), s2c := Frame(reply), heard := s.heard + [call],
                       meant := s.meant + [Meant(reply, refusal)], answers := s.answers + [reply])
  {
    FrameReadsBack(call, []);
    assert Frame(call) + [] == Frame(call);
    var one := After(s, Answer(reply, refusal, true));
    var two := After(one, GiveUp);
    last := After(two, Reply(4 + |reply|));
    assert [] + Frame(reply)[..4 + |reply|] == Frame(reply);
    RunsFirst(two, Reply(4 + |reply|), [], last);
    RunsFirst(one, GiveUp, [Reply(4 + |reply|)] + [], last);
    RunsFirst(s, Answer(reply, refusal, true), [GiveUp] + ([Reply(4 + |reply|)] + []), last);
    assert [Answer(reply, refusal, true)] + ([GiveUp] + ([Reply(4 + |reply|)] + []))
        == [Answer(reply, refusal, true), GiveUp, Reply(4 + |reply|)];
  }

  /** Why `adrift` is there: a client that gave up waiting can have the whole of that answer on its
      line afterwards. */
  lemma LateAnswerIsOnTheLine(call: seq<Byte>, reply: seq<Byte>, refusal: seq<Byte>)
    returns (steps: seq<Step>, last: State)
    requires Sendable(call) && Sendable(reply) && Sendable(refusal)
    ensures Runs(Begun(), steps, last) && last.adrift
    ensures last == State(Idle, true, Listening([]), [], Frame(reply), [call], [call], [Meant(reply, refusal)],
                          [reply], [])
  {
    hide Runs, After, Enabled, ReadBody, Frame;
    var one := CallWritten(call);
    var two := CallHeard(one, call);
    last := AnsweredLate(two, call, reply, refusal);
    RunsOn(one, [Hear(4), Hear(|call|)], two, [Answer(reply, refusal, true), GiveUp, Reply(4 + |reply|)], last);
    steps := [Hear(4), Hear(|call|)] + [Answer(reply, refusal, true), GiveUp, Reply(4 + |reply|)];
    RunsOn(Begun(), [Call(call), Write(4 + |call|)], one, steps, last);
    steps := [Call(call), Write(4 + |call|)] + steps;
    assert one.heard + [call] == [call] && one.answers + [reply] == [reply];
  }

  // ---- A whole exchange -----------------------------------------------------------------------------------

  /** Neither side is in the middle of anything. */
  predicate AtRest(s: State) {
    s.client == Idle && !s.adrift && s.server == Listening([]) && s.c2s == [] && s.s2c == []
  }

  lemma Answers(s: State, call: seq<Byte>, reply: seq<Byte>, refusal: seq<Byte>, sent: seq<Byte>) returns (last: State)
    requires Sendable(call) && reply != [] && Sendable(refusal) && s.server == Listening(Frame(call)) && s.s2c == []
    requires sent == if |reply| <= 0x100_0000 then reply else refusal
    ensures Runs(s, [Answer(reply, refusal, true), Reply(4 + |sent|)], last)
    ensures last == s.(server := Listening([]), s2c := Frame(sent), heard := s.heard + [call],
                       meant := s.meant + [Meant(reply, refusal)], answers := s.answers + [sent])
  {
    FrameReadsBack(call, []);
    assert Frame(call) + [] == Frame(call);
    var one := After(s, Answer(reply, refusal, true));
    last := After(one, Reply(4 + |sent|));
    assert [] + Frame(sent)[..4 + |sent|] == Frame(sent);
    RunsFirst(one, Reply(4 + |sent|), [], last);
    RunsFirst(s, Answer(reply, refusal, true), [Reply(4 + |sent|)] + [], last);
    assert [Answer(reply, refusal, true)] + ([Reply(4 + |sent|)] + [])
        == [Answer(reply, refusal, true), Reply(4 + |sent|)];
  }

  /** From rest any call that fits a frame can be made, heard, answered with any reply and returned from,
      and both sides are at rest again: the caller has the reply, or the refusal of one that is too long. */
  lemma ExchangeRuns(s: State, call: seq<Byte>, reply: seq<Byte>, refusal: seq<Byte>)
    returns (steps: seq<Step>, last: State)
    requires AtRest(s) && call != [] && |call| <= 0x100_0000 && reply != [] && Sendable(refusal)
    ensures Runs(s, steps, last) && AtRest(last)
    ensures last.calls == s.calls + [call] && last.heard == s.heard + [call]
    ensures last.returned == s.returned + [if |reply| <= 0x100_0000 then reply else refusal]
  {
    hide Runs, After, Enabled, Frame;
    var sent := if |reply| <= 0x100_0000 then reply else refusal;
    var one := NextCalled(s, call);
    var two := CallHeard(one, call);
    var three := Answers(two, call, reply, refusal, sent);
    last := ReadsWhatIsThere(three, sent);
    steps := [Answer(reply, refusal, true), Reply(4 + |sent|)] + [Read(4), Read(|sent|), Take(true)];
    RunsOn(two, [Answer(reply, refusal, true), Reply(4 + |sent|)], three, [Read(4), Read(|sent|), Take(true)], last);
    RunsOn(one, [Hear(4), Hear(|call|)], two, steps, last);
    steps := [Hear(4), Hear(|call|)] + steps;
    RunsOn(s, [Call(call), Write(4 + |call|)], one, steps, last);
    steps := [Call(call), Write(4 + |call|)] + steps;
  }

  // ---- The same line without the flag --------------------------------------------------------------------

  function Unflagged(s: State): State {
    s.(adrift := false)
  }

  /** The runs of a client that keeps no flag: every step is taken as though it were down. */
  ghost predicate CarelessRuns(s: State, steps: seq<Step>, last: State)
    decreases |steps|
  {
    if steps == [] then
      last == s
    else
      Enabled(Unflagged(s), steps[0]) && CarelessRuns(After(Unflagged(s), steps[0]), steps[1..], last)
  }

  lemma {:induction false} CarelessToo(s: State, steps: seq<Step>, last: State, t: State) returns (end: State)
    requires Runs(s, steps, last) && Unflagged(t) == Unflagged(s)
    ensures CarelessRuns(t, steps, end) && Unflagged(end) == Unflagged(last)
    decreases |steps|
  {
    if steps == [] {
      end := t;
    } else {
      StepUnflagged(s, steps[0]);
      end := CarelessToo(After(s, steps[0]), steps[1..], last, After(Unflagged(t), steps[0]));
    }
  }

  lemma StepUnflagged(s: State, step: Step)
    requires Enabled(s, step)
    ensures Enabled(Unflagged(s), step)
    ensures Unflagged(After(Unflagged(s), step)) == Unflagged(After(s, step))
  {
    hide ReadBody, Frame, Wanted, Expecting;
  }

  lemma NextCalled(s: State, next: seq<Byte>) returns (last: State)
    requires Sendable(next) && s.client == Idle && !s.adrift && s.c2s == []
    ensures Runs(s, [Call(next), Write(4 + |next|)], last)
    ensures last == s.(client := Reading([]), adrift := true, c2s := Frame(next), calls := s.calls + [next])
  {
    var one := After(s, Call(next));
    last := After(one, Write(4 + |next|));
    assert one.client == Writing(Frame(next));
    assert [] + Frame(next)[..4 + |next|] == Frame(next);
    RunsFirst(one, Write(4 + |next|), [], last);
    RunsFirst(s, Call(next), [Write(4 + |next|)] + [], last);
    assert [Call(next)] + ([Write(4 + |next|)] + []) == [Call(next), Write(4 + |next|)];
  }

  lemma ReadsWhatIsThere(s: State, reply: seq<Byte>) returns (last: State)
    requires Sendable(reply) && s.client == Reading([]) && s.s2c == Frame(reply)
    ensures Runs(s, [Read(4), Read(|reply|), Take(true)], last)
    ensures last == s.(client := Idle, adrift := false, s2c := [], returned := s.returned + [reply])
  {
    var frame := Frame(reply);
    HeaderSaysLength(|reply|);
    FrameReadsBack(reply, []);
    assert frame + [] == frame;
    assert [] + frame[..4] == Header(|reply|) && frame[..4][..4] == frame[..4];
    var one := After(s, Read(4));
    assert one.s2c == reply && one.client.got == Header(|reply|) && one.client.got[..4] == Header(|reply|);
    var two := After(one, Read(|reply|));
    assert Header(|reply|) + reply[..|reply|] == frame;
    last := After(two, Take(true));
    RunsFirst(two, Take(true), [], last);
    RunsFirst(one, Read(|reply|), [Take(true)] + [], last);
    RunsFirst(s, Read(4), [Read(|reply|)] + ([Take(true)] + []), last);
    assert [Read(4)] + ([Read(|reply|)] + ([Take(true)] + [])) == [Read(4), Read(|reply|), Take(true)];
  }

  /** Without it the next call gets that answer: for any two calls and any reply to the first, a run in
      which the client gives up on the first, makes the second, and returns for it the reply to the
      first, the server not having read the second at all. */
  lemma WithoutTheFlagItIsWrong(call: seq<Byte>, reply: seq<Byte>, refusal: seq<Byte>, next: seq<Byte>)
    returns (before: seq<Step>, mid: State, after: seq<Step>, last: State)
    requires Sendable(call) && Sendable(reply) && Sendable(refusal) && Sendable(next)
    ensures CarelessRuns(Begun(), before, mid) && CarelessRuns(mid, after, last)
    ensures mid.client == Idle && mid.calls == [call] && mid.returned == []
    ensures last.client == Idle && last.calls == [call, next] && last.heard == [call]
    ensures last.answers == [reply] && last.returned == [reply]
  {
    hide Runs, CarelessRuns, After, Enabled, Frame;
    var late: State;
    before, late := LateAnswerIsOnTheLine(call, reply, refusal);
    mid := CarelessToo(Begun(), before, late, Begun());
    var start := Unflagged(late);
    var called := NextCalled(start, next);
    var took := ReadsWhatIsThere(called, reply);
    after := [Call(next), Write(4 + |next|)] + [Read(4), Read(|reply|), Take(true)];
    RunsOn(start, [Call(next), Write(4 + |next|)], called, [Read(4), Read(|reply|), Take(true)], took);
    last := CarelessToo(start, after, took, mid);
    assert [call] + [next] == [call, next];
  }

  // ---- When the line is done for ----------------------------------------------------------------------

  /** A client that has given up on a call, or whose call was too long to send, asks nothing more on the
      line and takes nothing more from it, whatever the server still does. */
  lemma {:induction false} AdriftForGood(s: State, steps: seq<Step>, last: State)
    requires s.client.Idle? && s.adrift && Runs(s, steps, last)
    ensures last.client.Idle? && last.adrift && last.calls == s.calls && last.returned == s.returned
    decreases |steps|
  {
    hide After, Enabled;
    if steps != [] {
      AdriftStep(s, steps[0]);
      AdriftForGood(After(s, steps[0]), steps[1..], last);
    }
  }

  lemma AdriftStep(s: State, step: Step)
    requires s.client.Idle? && s.adrift && Enabled(s, step)
    ensures var n := After(s, step); n.client.Idle? && n.adrift && n.calls == s.calls && n.returned == s.returned
  {
    hide ReadBody, Frame, Wanted, Expecting;
  }

  /** Both ways there: nothing of a call that is too long is sent, and a call given up on stays made. */
  lemma GoesAdrift(s: State, step: Step)
    requires Enabled(s, step) && (step.GiveUp? || (step.Call? && |step.body| > 0x100_0000))
    requires step.GiveUp? ==> s.adrift
    ensures var n := After(s, step);
            n.client.Idle? && n.adrift && n.calls == s.calls && n.c2s == s.c2s && n.returned == s.returned
  {
  }

  /** A server that has gone reads and says nothing more. */
  lemma {:induction false} GoneForGood(s: State, steps: seq<Step>, last: State)
    requires s.server.Gone? && Runs(s, steps, last)
    ensures last.server.Gone? && last.heard == s.heard && last.answers == s.answers
    decreases |steps|
  {
    hide After, Enabled;
    if steps != [] {
      GoneStep(s, steps[0]);
      GoneForGood(After(s, steps[0]), steps[1..], last);
    }
  }

  lemma GoneStep(s: State, step: Step)
    requires s.server.Gone? && Enabled(s, step)
    ensures After(s, step).server.Gone? && After(s, step).heard == s.heard && After(s, step).answers == s.answers
  {
    hide ReadBody, Frame, Wanted, Expecting;
  }

  /** It goes when it hangs up, and, having answered, after a frame it would not read or a call it could not
      make out: the whole of that answer is on the line and nothing after it. */
  lemma RefusesAndGoes(s: State, step: Step)
    requires Enabled(s, step) && (step.RefuseFrame? || (step.Answer? && !step.decodes))
    ensures var n := After(s, step);
            && n.server.Answering? && n.server.rest == Frame(n.answers[|n.answers| - 1])
            && Enabled(n, Reply(|n.server.rest|))
            && var last := After(n, Reply(|n.server.rest|));
               last.server.Gone? && last.s2c == s.s2c + n.server.rest
    ensures After(s, Leave).server.Gone? && After(s, Leave).s2c == s.s2c
  {
    hide ReadBody, Wanted, Expecting;
    var n := After(s, step);
    assert n.server.rest[..|n.server.rest|] == n.server.rest;
  }
}
