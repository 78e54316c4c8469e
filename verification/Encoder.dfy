/** The fixture provider's Anthropic dialect: a turn's events printed as frames of content blocks.
    The printer must leave one block open at a time and number them without a gap, and a strict
    reader of what it prints must get the turn's events back. */
module Encoder {
  import opened Options

  datatype Kind = TextKind | ThinkingKind | ToolKind

  datatype Event =
    | Text(text: string)
    | Thinking(text: string)
    | Signature(signature: string)
    | ToolCall(id: string, name: string, arguments: string)
    | Finish(reason: string)
    | Split(text: string)
    | Pause(ms: nat)
    | Drop
    | Usage(input: nat, output: nat)
    | Metrics

  datatype Block = TextBlock | ThinkingBlock | ToolBlock(id: string, name: string)

  datatype Delta =
    | TextDelta(text: string)
    | ThinkingDelta(text: string)
    | SignatureDelta(signature: string)
    | InputDelta(json: string)

  datatype Frame =
    | MessageStart
    | BlockStart(index: nat, block: Block)
    | BlockDelta(index: nat, delta: Delta)
    | BlockStop(index: nat)
    | MessageDelta(reason: string)
    | MessageStop

  datatype Refusal = AfterStop | AfterSignature | NoThinkingBlock | UnknownReason | CountsElsewhere | NeitherFinishNorDrop

  // ---- The encoder --------------------------------------------------------------------------------

  /** The encoder's fields. */
  datatype At = At(index: nat, open: Option<Kind>, signed: bool, finished: bool)

  function Fresh(): At {
    At(0, None, false, false)
  }

  function Reason(said: string): Option<string> {
    if said == "stop" || said == "end_turn" then Some("end_turn")
    else if said == "tool_calls" || said == "tool_use" then Some("tool_use")
    else if said == "length" || said == "max_tokens" then Some("max_tokens")
    else None
  }

  function Closed(at: At): (At, seq<Frame>) {
    if at.open.Some? then (at.(open := None, index := at.index + 1), [BlockStop(at.index)]) else (at, [])
  }

  function InBlock(at: At, kind: Kind): (At, seq<Frame>) {
    if at.open == Some(kind) then (at, [])
    else
      var (shut, frames) := Closed(at);
      (shut.(open := Some(kind), signed := false),
       frames + [BlockStart(shut.index, if kind == ThinkingKind then ThinkingBlock else TextBlock)])
  }

  /** One event: the fields after it, and what it prints. */
  function Encoded(at: At, event: Event): Result<(At, seq<Frame>), Refusal> {
    if event.Pause? || event.Drop? then Ok((at, []))
    else if at.finished then Err(AfterStop)
    else
      match event
      case Text(text) =>
        var (b, frames) := InBlock(at, TextKind);
        Ok((b, frames + [BlockDelta(b.index, TextDelta(text))]))
      case Split(text) =>
        var (b, frames) := InBlock(at, TextKind);
        Ok((b, frames + [BlockDelta(b.index, TextDelta(text))]))
      case Thinking(text) =>
        var (b, frames) := InBlock(at, ThinkingKind);
        if b.signed then Err(AfterSignature)
        else Ok((b, frames + [BlockDelta(b.index, ThinkingDelta(text))]))
      case Signature(signature) =>
        if at.open != Some(ThinkingKind) then Err(NoThinkingBlock)
        else Ok((at.(signed := true), [BlockDelta(at.index, SignatureDelta(signature))]))
      case ToolCall(id, name, arguments) =>
        var (b, frames) := Closed(at);
        Ok((b.(index := b.index + 1),
            frames + [BlockStart(b.index, ToolBlock(id, name)), BlockDelta(b.index, InputDelta(arguments)),
                      BlockStop(b.index)]))
      case Finish(said) =>
        if Reason(said).None? then Err(UnknownReason)
        else
          var (b, frames) := Closed(at);
          Ok((b.(finished := true), frames + [MessageDelta(Reason(said).value), MessageStop]))
      case _ => Err(CountsElsewhere)
  }

  class Printer {
    var index: nat
    var open: Option<Kind>
    var signed: bool
    var finished: bool

    constructor ()
      ensures Fields() == Fresh()
    {
      index, open, signed, finished := 0, None, false, false;
    }

    function Fields(): At
      reads this
    {
      At(index, open, signed, finished)
    }

    method Close(out: seq<Frame>) returns (frames: seq<Frame>)
      modifies this
      ensures Fields() == Closed(old(Fields())).0 && frames == out + Closed(old(Fields())).1
      ensures open.None? && index == old(index) + |frames| - |out|
      ensures old(open).None? ==> frames == out
    {
      frames := out;
      if open.Some? {
        open := None;
        frames := frames + [BlockStop(index)];
        index := index + 1;
      }
      assert out + [] == out;
    }

    method Block(kind: Kind, out: seq<Frame>) returns (frames: seq<Frame>)
      modifies this
      ensures Fields() == InBlock(old(Fields()), kind).0 && frames == out + InBlock(old(Fields()), kind).1
      ensures open == Some(kind) && finished == old(finished)
      ensures old(open) == Some(kind) ==> frames == out && index == old(index) && signed == old(signed)
      ensures old(open) != Some(kind) ==> !signed && index == old(index) + (if old(open).Some? then 1 else 0)
    {
      frames := out;
      if open != Some(kind) {
        frames := Close(frames);
        open := Some(kind);
        signed := false;
        var started := [BlockStart(index, if kind == ThinkingKind then ThinkingBlock else TextBlock)];
        assert (out + Closed(old(Fields())).1) + started == out + (Closed(old(Fields())).1 + started);
        frames := frames + started;
      }
      assert out + [] == out;
    }

    /** A refused event prints nothing and leaves every field as it was. */
    method Event(event: Event) returns (r: Result<seq<Frame>, Refusal>)
      modifies this
      ensures match Encoded(old(Fields()), event)
              case Ok(done) => r == Ok(done.1) && Fields() == done.0
              case Err(why) => r == Err(why) && Fields() == old(Fields())
    {
      var out: seq<Frame> := [];
      if event.Pause? || event.Drop? {
        return Ok(out);
      }
      if finished {
        return Err(AfterStop);
      }
      match event {
        case Text(text) =>
          out := Block(TextKind, out);
          assert out == InBlock(old(Fields()), TextKind).1;
          out := out + [BlockDelta(index, TextDelta(text))];
        case Split(text) =>
          out := Block(TextKind, out);
          assert out == InBlock(old(Fields()), TextKind).1;
          out := out + [BlockDelta(index, TextDelta(text))];
        case Thinking(text) =>
          out := Block(ThinkingKind, out);
          assert out == InBlock(old(Fields()), ThinkingKind).1;
          if signed {
            return Err(AfterSignature);
          }
          out := out + [BlockDelta(index, ThinkingDelta(text))];
        case Signature(signature) =>
          if open != Some(ThinkingKind) {
            return Err(NoThinkingBlock);
          }
          signed := true;
          out := [BlockDelta(index, SignatureDelta(signature))];
        case ToolCall(id, name, arguments) =>
          out := Close(out);
          assert out == Closed(old(Fields())).1;
          out := out + [BlockStart(index, ToolBlock(id, name)), BlockDelta(index, InputDelta(arguments)),
                        BlockStop(index)];
          index := index + 1;
        case Finish(said) =>
          var reason := Reason(said);
          if reason.None? {
            return Err(UnknownReason);
          }
          out := Close(out);
          assert out == Closed(old(Fields())).1;
          out := out + [MessageDelta(reason.value), MessageStop];
          finished := true;
        case _ =>
          return Err(CountsElsewhere);
      }
      return Ok(out);
    }
  }

  /** A run of events, and everything they print. */
  function EncodedAll(at: At, events: seq<Event>): Result<(At, seq<Frame>), Refusal>
    decreases |events|
  {
    if events == [] then Ok((at, []))
    else
      match Encoded(at, events[0])
      case Err(why) => Err(why)
      case Ok(one) =>
        match EncodedAll(one.0, events[1..])
        case Err(why) => Err(why)
        case Ok(rest) => Ok((rest.0, one.1 + rest.1))
  }

  /** What is sent: a drop hangs up, and whatever follows it is never reached. */
  function BeforeDrop(events: seq<Event>): seq<Event> {
    if events == [] || events[0].Drop? then [] else [events[0]] + BeforeDrop(events[1..])
  }

  function Validated(events: seq<Event>): Result<(), Refusal> {
    match EncodedAll(Fresh(), BeforeDrop(events))
    case Err(why) => Err(why)
    case Ok(done) => if Drop !in events && !done.0.finished then Err(NeitherFinishNorDrop) else Ok(())
  }

  lemma NothingEncoded(events: seq<Event>)
    ensures EncodedAll(Fresh(), events[..0]) == Ok((Fresh(), [])) && events[0..] == events
  {
  }

  method Validate(events: seq<Event>) returns (r: Result<(), Refusal>)
    ensures r == Validated(events)
  {
    hide Encoded, Fresh;
    NothingEncoded(events);
    var encoder := new Printer();
    var n := 0;
    while n < |events|
      invariant 0 <= n <= |events| && Drop !in events[..n]
      invariant var done := EncodedAll(Fresh(), events[..n]); done.Ok? && done.value.0 == encoder.Fields()
      invariant BeforeDrop(events) == events[..n] + BeforeDrop(events[n..])
    {
      OneMore(Fresh(), events, n);
      if events[n].Drop? {
        assert BeforeDrop(events) == events[..n];
        return Ok(());
      }
      var sent := encoder.Event(events[n]);
      if sent.Err? {
        Stops(Fresh(), events[..n + 1], BeforeDrop(events[n + 1..]));
        assert BeforeDrop(events) == events[..n + 1] + BeforeDrop(events[n + 1..]);
        return Err(sent.error);
      }
      assert BeforeDrop(events) == events[..n + 1] + BeforeDrop(events[n + 1..]);
      n := n + 1;
    }
    assert events[..n] == events && BeforeDrop(events) == events;
    if !encoder.finished {
      return Err(NeitherFinishNorDrop);
    }
    return Ok(());
  }

  lemma {:induction false} EncodesOn(at: At, a: seq<Event>, b: seq<Event>)
    requires EncodedAll(at, a).Ok?
    ensures EncodedAll(at, a + b) ==
            match EncodedAll(EncodedAll(at, a).value.0, b)
            case Err(why) => Err(why)
            case Ok(rest) => Ok((rest.0, EncodedAll(at, a).value.1 + rest.1))
    decreases |a|
  {
    hide Encoded;
    if a == [] {
      assert a + b == b;
      var rb := EncodedAll(at, b);
      assert rb.Ok? ==> [] + rb.value.1 == rb.value.1;
    } else {
      assert (a + b)[1..] == a[1..] + b;
      var one := Encoded(at, a[0]).value;
      EncodesOn(one.0, a[1..], b);
      var ra := EncodedAll(one.0, a[1..]).value;
      var rb := EncodedAll(ra.0, b);
      assert rb.Ok? ==> one.1 + (ra.1 + rb.value.1) == (one.1 + ra.1) + rb.value.1;
    }
  }

  lemma {:induction false} Stops(at: At, a: seq<Event>, b: seq<Event>)
    requires EncodedAll(at, a).Err?
    ensures EncodedAll(at, a + b) == EncodedAll(at, a)
    decreases |a|
  {
    hide Encoded;
    assert (a + b)[1..] == a[1..] + b;
    if Encoded(at, a[0]).Ok? {
      Stops(Encoded(at, a[0]).value.0, a[1..], b);
    }
  }

  lemma JustOne(at: At, event: Event)
    ensures EncodedAll(at, [event]) == Encoded(at, event)
  {
    hide Encoded;
    assert [event][1..] == [];
    if Encoded(at, event).Ok? {
      var one := Encoded(at, event).value;
      assert EncodedAll(one.0, []) == Ok((one.0, []));
      assert one.1 + [] == one.1;
    }
  }

  lemma OneMore(at: At, events: seq<Event>, n: nat)
    requires n < |events| && EncodedAll(at, events[..n]).Ok?
    ensures EncodedAll(at, events[..n + 1]) ==
            match Encoded(EncodedAll(at, events[..n]).value.0, events[n])
            case Err(why) => Err(why)
            case Ok(one) => Ok((one.0, EncodedAll(at, events[..n]).value.1 + one.1))
    ensures events[n..] == [events[n]] + events[n + 1..]
  {
    hide Encoded;
    assert events[..n + 1] == events[..n] + [events[n]];
    EncodesOn(at, events[..n], [events[n]]);
    var here := EncodedAll(at, events[..n]).value.0;
    JustOne(here, events[n]);
  }

  // ---- Which turns it accepts -----------------------------------------------------------------------

  /** The three reasons there are, under every name they may be given. */
  const PROPER: map<string, string> := map["end_turn" := "end_turn", "stop" := "end_turn",
                                           "tool_use" := "tool_use", "tool_calls" := "tool_use",
                                           "max_tokens" := "max_tokens", "length" := "max_tokens"]

  lemma ReasonIsProper(said: string)
    ensures Reason(said) == if said in PROPER then Some(PROPER[said]) else None
  {
  }

  /** A pause and a drop print nothing. */
  function Kept(events: seq<Event>): seq<Event> {
    if events == [] then []
    else (if events[0].Pause? || events[0].Drop? then [] else [events[0]]) + Kept(events[1..])
  }

  predicate MayFollow(previous: Option<Event>, event: Event) {
    && !(previous.Some? && previous.value.Finish?)
    && !event.Usage? && !event.Metrics?
    && (event.Finish? ==> event.reason in PROPER)
    && (event.Signature? ==> previous.Some? && (previous.value.Thinking? || previous.value.Signature?))
    && (event.Thinking? ==> !(previous.Some? && previous.value.Signature?))
  }

  function Before(events: seq<Event>, n: nat): Option<Event>
    requires n <= |events|
  {
    if n == 0 then None else Some(events[n - 1])
  }

  predicate Fits(events: seq<Event>, n: nat)
    requires n < |events|
  {
    MayFollow(Before(events, n), events[n])
  }

  /** A finish of a known reason only at the end, a signature only straight after thinking or another
      signature, no thinking straight after a signature, and no counts. */
  predicate Legal(events: seq<Event>) {
    forall n :: 0 <= n < |events| ==> Fits(events, n)
  }

  /** The fields say what came last. */
  predicate Agrees(at: At, previous: Option<Event>) {
    && (at.finished <==> previous.Some? && previous.value.Finish?)
    && (at.open == Some(ThinkingKind) <==> previous.Some? && (previous.value.Thinking? || previous.value.Signature?))
    && (at.open == Some(ThinkingKind) && at.signed <==> previous.Some? && previous.value.Signature?)
  }

  lemma OneFits(at: At, previous: Option<Event>, event: Event)
    requires Agrees(at, previous) && !event.Pause? && !event.Drop?
    ensures Encoded(at, event).Ok? <==> MayFollow(previous, event)
    ensures Encoded(at, event).Ok? ==> Agrees(Encoded(at, event).value.0, Some(event))
  {
    hide Reason;
    if event.Finish? {
      ReasonIsProper(event.reason);
    }
  }

  /** Why an event is refused where it may not follow: nothing after a finish, counts nowhere, and a
      signature or thinking only where it belongs. */
  lemma RefusedFor(at: At, previous: Option<Event>, event: Event)
    requires Agrees(at, previous) && !event.Pause? && !event.Drop? && !MayFollow(previous, event)
    ensures Encoded(at, event).Err?
    ensures var why := Encoded(at, event).error;
            && (why == AfterStop <==> previous.Some? && previous.value.Finish?)
            && (why == CountsElsewhere ==> event.Usage? || event.Metrics?)
            && (why == UnknownReason ==> event.Finish?) && (why == NoThinkingBlock ==> event.Signature?)
            && (why == AfterSignature ==> event.Thinking?) && why != NeitherFinishNorDrop
  {
    hide Reason;
    if event.Finish? {
      ReasonIsProper(event.reason);
    }
  }

  lemma {:induction false} KeptHasNoPause(events: seq<Event>)
    ensures forall e :: e in Kept(events) ==> !e.Pause? && !e.Drop?
  {
    if events != [] {
      KeptHasNoPause(events[1..]);
    }
  }

  lemma {:induction false} AcceptsKept(events: seq<Event>)
    requires forall e :: e in events ==> !e.Pause? && !e.Drop?
    ensures EncodedAll(Fresh(), events).Ok? <==> Legal(events)
    ensures Legal(events) ==> Agrees(EncodedAll(Fresh(), events).value.0, Before(events, |events|))
  {
    hide Encoded, MayFollow, Agrees;
    if events == [] {
      FreshAgrees();
    } else {
      var n := |events| - 1;
      var front := events[..n];
      assert events == front + [events[n]];
      assert forall e :: e in front ==> e in events;
      AcceptsKept(front);
      assert forall i :: 0 <= i < n ==> Fits(events, i) == Fits(front, i);
      if Legal(front) {
        OneMore(Fresh(), events, n);
        assert events[..n + 1] == events;
        OneFits(EncodedAll(Fresh(), front).value.0, Before(events, n), events[n]);
        assert Fits(events, n) <==> MayFollow(Before(events, n), events[n]);
      } else {
        assert !Legal(events);
        Stops(Fresh(), front, [events[n]]);
      }
    }
  }

  lemma FreshAgrees()
    ensures Agrees(Fresh(), None)
  {
  }

  lemma {:induction false} PausesPrintNothing(at: At, events: seq<Event>)
    ensures EncodedAll(at, Kept(events)) == EncodedAll(at, events)
    decreases |events|
  {
    if events != [] {
      var e, rest := events[0], events[1..];
      if e.Pause? || e.Drop? {
        PausesPrintNothing(at, rest);
        assert Kept(events) == Kept(rest);
        var all := EncodedAll(at, rest);
        assert all.Ok? ==> [] + all.value.1 == all.value.1;
      } else {
        assert Kept(events)[1..] == Kept(rest);
        if Encoded(at, e).Ok? {
          PausesPrintNothing(Encoded(at, e).value.0, rest);
        }
      }
    }
  }

  /** The encoder takes exactly the legal turns. */
  lemma AcceptsExactly(events: seq<Event>)
    ensures EncodedAll(Fresh(), events).Ok? <==> Legal(Kept(events))
  {
    KeptHasNoPause(events);
    AcceptsKept(Kept(events));
    PausesPrintNothing(Fresh(), events);
  }

  // ---- What a strict reader makes of it ----------------------------------------------------------------

  /** Reads one frame at a time and takes nothing out of place: blocks numbered from nought without a
      gap, one open at a time, none empty, none of text or thinking straight after another of the same
      kind, no thinking after its signature, one input to a tool, one stop straight after its reason,
      and nothing after that. */
  datatype Reader = Reader(began: bool, next: nat, open: Option<Kind>, tool: (string, string), input: Option<string>,
                           fed: bool, signed: bool, previous: Option<Kind>, reason: Option<string>, ended: bool,
                           got: seq<Event>)

  function Unread(): Reader {
    Reader(false, 0, None, ("", ""), None, false, false, None, None, false, [])
  }

  function ReadStart(r: Reader, block: Block): Option<Reader> {
    var begun := r.(fed := false, signed := false, input := None);
    match block
    case TextBlock => if r.previous == Some(TextKind) then None else Some(begun.(open := Some(TextKind)))
    case ThinkingBlock => if r.previous == Some(ThinkingKind) then None else Some(begun.(open := Some(ThinkingKind)))
    case ToolBlock(id, name) => Some(begun.(open := Some(ToolKind), tool := (id, name)))
  }

  function ReadDelta(r: Reader, delta: Delta): Option<Reader> {
    match delta
    case TextDelta(text) =>
      if r.open != Some(TextKind) then None else Some(r.(fed := true, got := r.got + [Text(text)]))
    case ThinkingDelta(text) =>
      if r.open != Some(ThinkingKind) || r.signed then None
      else Some(r.(fed := true, got := r.got + [Thinking(text)]))
    case SignatureDelta(signature) =>
      if r.open != Some(ThinkingKind) || !r.fed then None
      else Some(r.(signed := true, got := r.got + [Signature(signature)]))
    case InputDelta(json) =>
      if r.open != Some(ToolKind) || r.input.Some? then None else Some(r.(fed := true, input := Some(json)))
  }

  function ReadStop(r: Reader): Option<Reader> {
    if r.open.None? || !r.fed then None
    else
      var shut := r.(next := r.next + 1, previous := r.open, open := None);
      if r.open == Some(ToolKind) then
        if r.input.None? then None else Some(shut.(got := r.got + [ToolCall(r.tool.0, r.tool.1, r.input.value)]))
      else Some(shut)
  }

  function ReadFrame(r: Reader, frame: Frame): Option<Reader> {
    if frame.MessageStart? then (if r.began then None else Some(r.(began := true)))
    else if !r.began || r.ended then None
    else if r.reason.Some? then
      (if frame.MessageStop? then Some(r.(ended := true, got := r.got + [Finish(r.reason.value)])) else None)
    else
      match frame
      case BlockStart(index, block) => if index != r.next || r.open.Some? then None else ReadStart(r, block)
      case BlockDelta(index, delta) => if index != r.next then None else ReadDelta(r, delta)
      case BlockStop(index) => if index != r.next then None else ReadStop(r)
      case MessageDelta(reason) => if r.open.Some? then None else Some(r.(reason := Some(reason)))
      case _ => None
  }

  function ReadAll(r: Reader, frames: seq<Frame>): Option<Reader>
    decreases |frames|
  {
    if frames == [] then Some(r)
    else
      match ReadFrame(r, frames[0])
      case None => None
      case Some(next) => ReadAll(next, frames[1..])
  }

  lemma {:induction false} ReadsOn(r: Reader, a: seq<Frame>, b: seq<Frame>)
    requires ReadAll(r, a).Some?
    ensures ReadAll(r, a + b) == ReadAll(ReadAll(r, a).value, b)
    decreases |a|
  {
    hide ReadFrame;
    if a == [] {
      assert a + b == b;
    } else {
      assert (a + b)[1..] == a[1..] + b;
      ReadsOn(ReadFrame(r, a[0]).value, a[1..], b);
    }
  }

  lemma ReadsOne(r: Reader, f: Frame)
    ensures ReadAll(r, [f]) == ReadFrame(r, f)
  {
    hide ReadFrame;
    assert [f][1..] == [];
    if ReadFrame(r, f).Some? {
      assert ReadAll(ReadFrame(r, f).value, []) == ReadFrame(r, f);
    }
  }

  function CanonicalOf(event: Event): Event {
    match event
    case Split(text) => Text(text)
    case Finish(said) => if said in PROPER then Finish(PROPER[said]) else event
    case _ => event
  }

  /** What a reader can know of a turn: its pauses and its drop are gone, a split text is a text, and
      its reason has its one name. */
  function Canonical(events: seq<Event>): seq<Event> {
    if events == [] then []
    else (if events[0].Pause? || events[0].Drop? then [] else [CanonicalOf(events[0])]) + Canonical(events[1..])
  }

  /** The printer and the reader of what it has printed so far are at the same place. */
  predicate Together(at: At, r: Reader) {
    && r.began && r.next == at.index && r.open == at.open && r.ended == at.finished
    && (r.reason.Some? ==> r.ended)
    && (at.finished ==> at.open.None?)
    && at.open != Some(ToolKind)
    && (at.open == Some(ThinkingKind) ==> r.signed == at.signed)
    && (at.open.Some? ==> r.fed)
    && (at.open.None? && !at.finished ==> r.previous == None || r.previous == Some(ToolKind))
  }

  lemma ReadsClosed(at: At, r: Reader)
    requires Together(at, r) && !at.finished
    ensures var (b, frames) := Closed(at); var read := ReadAll(r, frames);
            && read.Some?
            && read.value == r.(next := b.index, open := None,
                                previous := if at.open.Some? then at.open else r.previous)
  {
    if at.open.Some? {
      ReadsOne(r, BlockStop(at.index));
    }
  }

  lemma ReadsInBlock(at: At, kind: Kind, r: Reader)
    requires Together(at, r) && !at.finished && kind != ToolKind
    ensures var (b, frames) := InBlock(at, kind); var read := ReadAll(r, frames);
            && read.Some? && read.value.began && !read.value.ended && read.value.reason.None?
            && read.value.next == b.index && read.value.open == Some(kind) && read.value.got == r.got
            && (kind == ThinkingKind ==> read.value.signed == b.signed)
            && (kind == ThinkingKind && at.open != Some(kind) ==> !b.signed)
  {
    if at.open != Some(kind) {
      ReadsClosed(at, r);
      var (shut, frames) := Closed(at);
      var mid := ReadAll(r, frames).value;
      var start := BlockStart(shut.index, if kind == ThinkingKind then ThinkingBlock else TextBlock);
      ReadsOn(r, frames, [start]);
      ReadsOne(mid, start);
    }
  }

  lemma ReadsText(at: At, text: string, r: Reader)
    requires Together(at, r) && !at.finished
    ensures var done := Encoded(at, Text(text)).value; var read := ReadAll(r, done.1);
            read.Some? && Together(done.0, read.value) && read.value.got == r.got + [Text(text)]
  {
    ReadsInBlock(at, TextKind, r);
    var (b, frames) := InBlock(at, TextKind);
    ReadsOn(r, frames, [BlockDelta(b.index, TextDelta(text))]);
    ReadsOne(ReadAll(r, frames).value, BlockDelta(b.index, TextDelta(text)));
  }

  lemma ReadsThinking(at: At, text: string, r: Reader)
    requires Together(at, r) && Encoded(at, Thinking(text)).Ok?
    ensures var done := Encoded(at, Thinking(text)).value; var read := ReadAll(r, done.1);
            read.Some? && Together(done.0, read.value) && read.value.got == r.got + [Thinking(text)]
  {
    ReadsInBlock(at, ThinkingKind, r);
    var (b, frames) := InBlock(at, ThinkingKind);
    ReadsOn(r, frames, [BlockDelta(b.index, ThinkingDelta(text))]);
    ReadsOne(ReadAll(r, frames).value, BlockDelta(b.index, ThinkingDelta(text)));
  }

  lemma ReadsSignature(at: At, signature: string, r: Reader)
    requires Together(at, r) && Encoded(at, Signature(signature)).Ok?
    ensures var done := Encoded(at, Signature(signature)).value; var read := ReadAll(r, done.1);
            read.Some? && Together(done.0, read.value) && read.value.got == r.got + [Signature(signature)]
  {
    ReadsOne(r, BlockDelta(at.index, SignatureDelta(signature)));
  }

  lemma ReadsTool(r: Reader, id: string, name: string, arguments: string)
    requires r.began && !r.ended && r.reason.None? && r.open.None?
    ensures var frames := [BlockStart(r.next, ToolBlock(id, name)), BlockDelta(r.next, InputDelta(arguments)),
                           BlockStop(r.next)];
            var read := ReadAll(r, frames);
            && read.Some? && read.value.began && !read.value.ended && read.value.reason.None?
            && read.value.open.None? && read.value.next == r.next + 1 && read.value.previous == Some(ToolKind)
            && read.value.got == r.got + [ToolCall(id, name, arguments)]
  {
    var start, input, stop := BlockStart(r.next, ToolBlock(id, name)), BlockDelta(r.next, InputDelta(arguments)),
                              BlockStop(r.next);
    var one := ReadFrame(r, start).value;
    var two := ReadFrame(one, input).value;
    ReadsOne(two, stop);
    assert [start, input, stop][1..] == [input, stop];
    assert [input, stop][1..] == [stop];
  }

  lemma ReadsToolCall(at: At, id: string, name: string, arguments: string, r: Reader)
    requires Together(at, r) && !at.finished
    ensures var done := Encoded(at, ToolCall(id, name, arguments)).value; var read := ReadAll(r, done.1);
            read.Some? && Together(done.0, read.value) && read.value.got == r.got + [ToolCall(id, name, arguments)]
  {
    ReadsClosed(at, r);
    var (b, frames) := Closed(at);
    var mid := ReadAll(r, frames).value;
    ReadsTool(mid, id, name, arguments);
    ReadsOn(r, frames, [BlockStart(b.index, ToolBlock(id, name)), BlockDelta(b.index, InputDelta(arguments)),
                        BlockStop(b.index)]);
  }

  lemma ReadsFinish(at: At, said: string, r: Reader)
    requires Together(at, r) && Encoded(at, Finish(said)).Ok?
    ensures var done := Encoded(at, Finish(said)).value; var read := ReadAll(r, done.1);
            && read.Some? && Together(done.0, read.value)
            && said in PROPER && read.value.got == r.got + [Finish(PROPER[said])]
  {
    ReasonIsProper(said);
    ReadsClosed(at, r);
    var (b, frames) := Closed(at);
    var mid := ReadAll(r, frames).value;
    var reason := MessageDelta(Reason(said).value);
    ReadsOn(r, frames, [reason, MessageStop]);
    assert [reason, MessageStop][1..] == [MessageStop];
    ReadsOne(ReadFrame(mid, reason).value, MessageStop);
  }

  lemma ReadsEvent(at: At, event: Event, r: Reader)
    requires Together(at, r) && Encoded(at, event).Ok?
    ensures var done := Encoded(at, event).value; var read := ReadAll(r, done.1);
            && read.Some? && Together(done.0, read.value)
            && read.value.got == r.got + if event.Pause? || event.Drop? then [] else [CanonicalOf(event)]
  {
    hide ReadAll, Together, InBlock, Closed;
    match event
    case Text(text) => ReadsText(at, text, r);
    case Split(text) => ReadsText(at, text, r);
    case Thinking(text) => ReadsThinking(at, text, r);
    case Signature(signature) => ReadsSignature(at, signature, r);
    case ToolCall(id, name, arguments) => ReadsToolCall(at, id, name, arguments, r);
    case Finish(said) => ReadsFinish(at, said, r);
    case _ => ReadsNothing(r);
  }

  lemma ReadsNothing(r: Reader)
    ensures ReadAll(r, []) == Some(r) && r.got + [] == r.got
  {
  }

  lemma {:induction false} ReadsEvents(at: At, events: seq<Event>, r: Reader)
    requires Together(at, r) && EncodedAll(at, events).Ok?
    ensures var done := EncodedAll(at, events).value; var read := ReadAll(r, done.1);
            read.Some? && Together(done.0, read.value) && read.value.got == r.got + Canonical(events)
    decreases |events|
  {
    hide ReadAll, Together, Encoded, CanonicalOf;
    if events == [] {
      ReadsNothing(r);
    } else {
      var one := Encoded(at, events[0]).value;
      ReadsEvent(at, events[0], r);
      var mid := ReadAll(r, one.1).value;
      var rest := EncodedAll(one.0, events[1..]).value;
      ReadsEvents(one.0, events[1..], mid);
      ReadsOn(r, one.1, rest.1);
      assert EncodedAll(at, events).value == (rest.0, one.1 + rest.1);
      var first := if events[0].Pause? || events[0].Drop? then [] else [CanonicalOf(events[0])];
      assert (r.got + first) + Canonical(events[1..]) == r.got + (first + Canonical(events[1..]));
    }
  }

  // ---- Streaming a turn -------------------------------------------------------------------------------

  /** The frames a turn is streamed as, up to its drop. */
  function Streamed(events: seq<Event>): Result<seq<Frame>, Refusal> {
    match EncodedAll(Fresh(), BeforeDrop(events))
    case Err(why) => Err(why)
    case Ok(done) => Ok([MessageStart] + done.1)
  }

  /** A turn passes exactly when what comes before its drop is legal and it drops or finishes. */
  lemma ValidatesExactly(events: seq<Event>)
    ensures Validated(events).Ok? <==>
            var kept := Kept(BeforeDrop(events));
            Legal(kept) && (Drop in events || (kept != [] && kept[|kept| - 1].Finish?))
  {
    var sent := BeforeDrop(events);
    AcceptsExactly(sent);
    KeptHasNoPause(sent);
    AcceptsKept(Kept(sent));
    PausesPrintNothing(Fresh(), sent);
  }

  /** Whatever a legal turn streams, finished or dropped, a strict reader takes every frame of it and
      gets the turn's events back; and one that passed validation never fails, and has been read to
      its end unless it hangs up. */
  lemma StreamReadsBack(events: seq<Event>)
    ensures Streamed(events).Ok? <==> Legal(Kept(BeforeDrop(events)))
    ensures Validated(events).Ok? ==> Streamed(events).Ok?
    ensures Streamed(events).Ok? ==>
              var read := ReadAll(Unread(), Streamed(events).value);
              && read.Some? && read.value.got == Canonical(BeforeDrop(events))
              && (Validated(events).Ok? && Drop !in events ==> read.value.ended)
  {
    hide Legal, Kept;
    var sent := BeforeDrop(events);
    AcceptsExactly(sent);
    if Streamed(events).Ok? {
      ReadsOne(Unread(), MessageStart);
      var began := ReadFrame(Unread(), MessageStart).value;
      ReadsEvents(Fresh(), sent, began);
      ReadsOn(Unread(), [MessageStart], EncodedAll(Fresh(), sent).value.1);
    }
  }

  /** A turn that finishes is read to have finished for its reason, by whichever of its names it was
      given, and none that gives another name is accepted. */
  lemma FinishReadsBack(events: seq<Event>, said: string)
    requires Drop !in events && events != [] && events[|events| - 1] == Finish(said) && Streamed(events).Ok?
    ensures said in {"end_turn", "stop", "tool_use", "tool_calls", "max_tokens", "length"}
    ensures var read := ReadAll(Unread(), Streamed(events).value);
            && read.Some? && read.value.ended && read.value.got != []
            && var last := read.value.got[|read.value.got| - 1];
               && (said in {"end_turn", "stop"} ==> last == Finish("end_turn"))
               && (said in {"tool_use", "tool_calls"} ==> last == Finish("tool_use"))
               && (said in {"max_tokens", "length"} ==> last == Finish("max_tokens"))
  {
    hide ReadAll, Legal, EncodedAll, PROPER;
    StreamReadsBack(events);
    NothingDropped(events);
    ValidatesExactly(events);
    var n := |events| - 1;
    assert events == events[..n] + [events[n]];
    KeptAppends(events[..n], events[n]);
    CanonicalAppends(events[..n], events[n]);
    LegalLast(Kept(events));
    ProperWords(said);
  }

  lemma ProperWords(said: string)
    ensures said in PROPER ==> said in {"end_turn", "stop", "tool_use", "tool_calls", "max_tokens", "length"}
    ensures said in {"end_turn", "stop"} ==> said in PROPER && PROPER[said] == "end_turn"
    ensures said in {"tool_use", "tool_calls"} ==> said in PROPER && PROPER[said] == "tool_use"
    ensures said in {"max_tokens", "length"} ==> said in PROPER && PROPER[said] == "max_tokens"
  {
  }

  lemma LegalLast(events: seq<Event>)
    requires Legal(events) && events != [] && events[|events| - 1].Finish?
    ensures events[|events| - 1].reason in PROPER
  {
    hide PROPER;
    assert Fits(events, |events| - 1);
  }

  lemma {:induction false} NothingDropped(events: seq<Event>)
    requires Drop !in events
    ensures BeforeDrop(events) == events
  {
    if events != [] {
      NothingDropped(events[1..]);
    }
  }

  function Quietly(e: Event, said: seq<Event>): seq<Event> {
    if e.Pause? || e.Drop? then [] else said
  }

  lemma {:induction false} KeptAppends(events: seq<Event>, e: Event)
    ensures Kept(events + [e]) == Kept(events) + Quietly(e, [e])
  {
    if events == [] {
      KeptOne(e);
      assert events + [e] == [e];
    } else {
      assert (events + [e])[1..] == events[1..] + [e];
      KeptAppends(events[1..], e);
      KeptFirst(events);
      KeptFirst(events + [e]);
      hide Kept, Quietly;
      assert (Quietly(events[0], [events[0]]) + Kept(events[1..])) + Quietly(e, [e])
          == Quietly(events[0], [events[0]]) + (Kept(events[1..]) + Quietly(e, [e]));
    }
  }

  lemma KeptFirst(events: seq<Event>)
    requires events != []
    ensures Kept(events) == Quietly(events[0], [events[0]]) + Kept(events[1..])
  {
  }

  lemma KeptOne(e: Event)
    ensures Kept([e]) == Quietly(e, [e]) && Kept([]) == []
  {
    assert Kept([e][1..]) == [];
  }

  lemma {:induction false} CanonicalAppends(events: seq<Event>, e: Event)
    ensures Canonical(events + [e]) == Canonical(events) + Quietly(e, [CanonicalOf(e)])
  {
    hide CanonicalOf;
    if events == [] {
      CanonicalOne(e);
      assert events + [e] == [e];
    } else {
      assert (events + [e])[1..] == events[1..] + [e];
      CanonicalAppends(events[1..], e);
      CanonicalFirst(events);
      CanonicalFirst(events + [e]);
      hide Canonical, Quietly;
      var first := Quietly(events[0], [CanonicalOf(events[0])]);
      assert (first + Canonical(events[1..])) + Quietly(e, [CanonicalOf(e)])
          == first + (Canonical(events[1..]) + Quietly(e, [CanonicalOf(e)]));
    }
  }

  lemma CanonicalFirst(events: seq<Event>)
    requires events != []
    ensures Canonical(events) == Quietly(events[0], [CanonicalOf(events[0])]) + Canonical(events[1..])
  {
    hide CanonicalOf;
  }

  lemma CanonicalOne(e: Event)
    ensures Canonical([e]) == Quietly(e, [CanonicalOf(e)]) && Canonical([]) == []
  {
    hide CanonicalOf;
    assert Canonical([e][1..]) == [];
  }

  // ---- A text sent the way a bad network sends it --------------------------------------------------------

  newtype Byte = b: int | 0 <= b < 256

  const EVENT: seq<Byte> := [101, 118, 101, 110, 116, 58, 32]
  const DATA: seq<Byte> := [100, 97, 116, 97, 58, 32]
  const CRLF: seq<Byte> := [13, 10]

  /** A frame's name and payload on the wire, under carriage-return line endings. */
  function Render(name: seq<Byte>, data: seq<Byte>): seq<Byte> {
    EVENT + name + CRLF + DATA + data + CRLF + CRLF
  }

  function Rendered(frames: seq<(seq<Byte>, seq<Byte>)>): seq<Byte> {
    if frames == [] then [] else Render(frames[0].0, frames[0].1) + Rendered(frames[1..])
  }

  /** What stands before the first carriage return, and what after it and the newline it comes with. */
  function ReadLine(bytes: seq<Byte>): Option<(seq<Byte>, seq<Byte>)>
  {
    if bytes == [] then None
    else if bytes[0] == 13 then (if |bytes| > 1 && bytes[1] == 10 then Some(([], bytes[2..])) else None)
    else
      match ReadLine(bytes[1..])
      case None => None
      case Some((line, rest)) => Some(([bytes[0]] + line, rest))
  }

  /** A reader of one event: its name on one line, its data on the next, and an empty one. */
  function ReadRendered(bytes: seq<Byte>): Option<(seq<Byte>, seq<Byte>, seq<Byte>)> {
    match ReadLine(bytes)
    case None => None
    case Some((name, more)) =>
      match ReadLine(more)
      case None => None
      case Some((data, rest)) =>
        if EVENT <= name && DATA <= data && CRLF <= rest then
          Some((name[|EVENT|..], data[|DATA|..], rest[2..]))
        else None
  }

  lemma {:induction false} ReadsLine(line: seq<Byte>, rest: seq<Byte>)
    requires 13 !in line
    ensures ReadLine(line + CRLF + rest) == Some((line, rest))
  {
    var bytes := line + CRLF + rest;
    if line == [] {
      assert bytes[2..] == rest;
    } else {
      assert bytes[1..] == line[1..] + CRLF + rest;
      ReadsLine(line[1..], rest);
      assert [line[0]] + line[1..] == line;
    }
  }

  /** Whatever follows it, an event sent so is read back to its name and data, neither of which holds a
      line's end. */
  lemma RenderReadsBack(name: seq<Byte>, data: seq<Byte>, rest: seq<Byte>)
    requires 13 !in name && 13 !in data
    ensures ReadRendered(Render(name, data) + rest) == Some((name, data, rest))
  {
    var first, second := EVENT + name, DATA + data;
    var more := second + CRLF + (CRLF + rest);
    assert Render(name, data) + rest == first + CRLF + more;
    ReadsLine(first, more);
    ReadsLine(second, CRLF + rest);
    assert (CRLF + rest)[2..] == rest && first[|EVENT|..] == name && second[|DATA|..] == data;
  }

  /** And so are any number of them, one after another. */
  lemma {:induction false} RenderedReadsBack(frames: seq<(seq<Byte>, seq<Byte>)>)
    requires forall f :: f in frames ==> 13 !in f.0 && 13 !in f.1
    ensures ReadEvents(Rendered(frames)) == frames
  {
    hide Render, ReadRendered;
    if frames == [] {
      NothingRendered();
    } else {
      RenderReadsBack(frames[0].0, frames[0].1, Rendered(frames[1..]));
      RenderTakesRoom(frames[0].0, frames[0].1);
      RenderedReadsBack(frames[1..]);
    }
  }

  function ReadEvents(bytes: seq<Byte>): seq<(seq<Byte>, seq<Byte>)>
    decreases |bytes|
  {
    match ReadRendered(bytes)
    case Some((name, data, rest)) => if |rest| < |bytes| then [(name, data)] + ReadEvents(rest) else []
    case None => []
  }

  lemma RenderTakesRoom(name: seq<Byte>, data: seq<Byte>)
    ensures |Render(name, data)| > 0
  {
  }

  lemma NothingRendered()
    ensures ReadRendered([]).None?
  {
  }

  predicate Ascii(bytes: seq<Byte>) {
    forall i :: 0 <= i < |bytes| ==> bytes[i] < 0x80
  }

  /** Where the bytes are cut: straight after the first byte past ASCII, in the middle without one. */
  method CutAt(bytes: seq<Byte>) returns (at: nat)
    ensures at <= |bytes|
    ensures Ascii(bytes) ==> at == |bytes| / 2
    ensures !Ascii(bytes) ==> at > 0 && bytes[at - 1] >= 0x80 && Ascii(bytes[..at - 1])
  {
    var n := 0;
    while n < |bytes|
      invariant 0 <= n <= |bytes| && forall i :: 0 <= i < n ==> bytes[i] < 0x80
    {
      if bytes[n] >= 0x80 {
        return n + 1;
      }
      n := n + 1;
    }
    return |bytes| / 2;
  }

  lemma {:induction false} RenderedEnds(frames: seq<(seq<Byte>, seq<Byte>)>)
    requires frames != []
    ensures var bytes := Rendered(frames); |bytes| >= 2 && bytes[|bytes| - 1] == 10
  {
    if |frames| == 1 {
      assert Rendered(frames) == Render(frames[0].0, frames[0].1) + Rendered([]);
    } else {
      RenderedEnds(frames[1..]);
    }
  }

  /** The two parts are the whole, the cut falls inside the first character that is not ASCII, and
      neither part is empty: an empty one would be the chunk that ends the answer. */
  method SplitInTwo(frames: seq<(seq<Byte>, seq<Byte>)>) returns (head: seq<Byte>, tail: seq<Byte>)
    requires frames != []
    ensures head + tail == Rendered(frames) && head != [] && tail != []
    ensures !Ascii(Rendered(frames)) ==> head[|head| - 1] >= 0x80 && Ascii(head[..|head| - 1])
  {
    hide Rendered;
    var bytes := Rendered(frames);
    RenderedEnds(frames);
    var at := CutAt(bytes);
    head, tail := bytes[..at], bytes[at..];
    assert head + tail == bytes;
    assert at > 0 ==> head[..at - 1] == bytes[..at - 1];
  }
}
