/** Being taken on, with every effect a step of its own: an asking noted and sent, put to a person,
    accepted, and then withdraw, check, hand over, check again and write, each of which anything
    else may come between; a session can die at any point and be swept. The question is the one
    `src/main/adopting.rs` answers by withdrawing first: can two sessions that asked each other end
    up each the other's parent. */
module Handover {
  import opened Options
  import opened Chains

  /** The `.adopting` note: who was asked, and what the answer must quote. */
  datatype Asked = Asked(to: Id, nonce: nat)

  datatype Request = Request(from: Id, to: Id, nonce: nat)

  /** How far an accepted request has got. */
  datatype At = Started | Withdrawn | Checked | Consumed | Taken

  /** One accepted request: `parent` is taking `child` on. */
  datatype Took = Took(parent: Id, child: Id, nonce: nat, at: At)

  datatype State = State(note: Notes, asking: map<Id, Asked>, sent: set<Request>, put: set<Request>,
                         took: map<nat, Took>, nonce: nat, gone: set<Id>)

  /** The part of the check the race turns on; `room` stands for the rest of it. */
  predicate Clear(s: State, parent: Id, child: Id, room: bool) {
    parent != child && parent !in s.note && child !in s.note && room
  }

  datatype Step =
    | Ask(from: Id, to: Id)
    | Arrive(request: Request, room: bool)
    | Accept(request: Request, id: nat)
    | Withdraw(id: nat)
    | Check(id: nat, room: bool)
    | Consume(id: nat)
    | Recheck(id: nat, room: bool)
    | Write(id: nat)
    | Fail(id: nat)
    | ComeUp(child: Id, parent: Id)
    | Die(who: Id)
    | Sweep(who: Id)

  /** Nothing anywhere means anybody by `x`. */
  ghost predicate Unknown(s: State, x: Id) {
    && x !in s.note && x !in s.note.Values && x !in s.asking && x !in s.gone
    && (forall y :: y in s.asking ==> s.asking[y].to != x)
    && (forall r :: r in s.sent + s.put ==> r.from != x && r.to != x)
    && (forall t :: t in s.took ==> s.took[t].parent != x && s.took[t].child != x)
  }

  ghost predicate Enabled(s: State, step: Step) {
    match step
    case Ask(a, b) => a !in s.gone
    case Arrive(r, room) => r in s.sent && Clear(s, r.to, r.from, room)
    case Accept(r, t) => r in s.put && t !in s.took && r.to !in s.gone
    case Withdraw(t) => t in s.took && s.took[t].at == Started
    case Check(t, room) =>
      t in s.took && s.took[t].at == Withdrawn && Clear(s, s.took[t].parent, s.took[t].child, room)
    case Consume(t) =>
      t in s.took && s.took[t].at == Checked && Alive(s, s.took[t]) && s.took[t].child !in s.gone
    case Recheck(t, room) =>
      && t in s.took && s.took[t].at == Consumed && Clear(s, s.took[t].parent, s.took[t].child, room)
      && s.took[t].child !in s.gone
    case Write(t) => t in s.took && s.took[t].at == Taken
    case Fail(t) => t in s.took
    case ComeUp(c, p) => Unknown(s, c) && c != p
    case Die(x) => true
    case Sweep(x) => x in s.gone
  }

  /** The asker's note still is the one this request came of. */
  predicate Alive(s: State, t: Took) {
    t.child in s.asking && s.asking[t.child] == Asked(t.parent, t.nonce)
  }

  function Moved(s: State, t: nat, at: At): State
    requires t in s.took
  {
    s.(took := s.took[t := s.took[t].(at := at)])
  }

  ghost function After(s: State, step: Step): State
    requires Enabled(s, step)
  {
    match step
    case Ask(a, b) =>
      s.(asking := s.asking[a := Asked(b, s.nonce)], sent := s.sent + {Request(a, b, s.nonce)},
         nonce := s.nonce + 1)
    case Arrive(r, room) => s.(sent := s.sent - {r}, put := s.put + {r})
    case Accept(r, t) =>
      s.(put := s.put - {r}, took := s.took[t := Took(r.to, r.from, r.nonce, Started)])
    case Withdraw(t) =>
      var me, them := s.took[t].parent, s.took[t].child;
      var asking := if me in s.asking && s.asking[me].to == them then s.asking - {me} else s.asking;
      Moved(s, t, Withdrawn).(asking := asking)
    case Check(t, room) => Moved(s, t, Checked)
    case Consume(t) => Moved(s, t, Consumed).(asking := s.asking - {s.took[t].child})
    case Recheck(t, room) => Moved(s, t, Taken)
    case Write(t) => s.(note := s.note[s.took[t].child := s.took[t].parent], took := s.took - {t})
    case Fail(t) => s.(took := s.took - {t})
    case ComeUp(c, p) => s.(note := s.note[c := p])
    case Die(x) => s.(gone := s.gone + {x}, took := map t | t in s.took && s.took[t].parent != x :: s.took[t])
    case Sweep(x) => s.(note := s.note - {x}, asking := s.asking - {x})
  }

  // ---- What cannot happen --------------------------------------------------------------------

  ghost predicate RingOfTwo(s: State, a: Id, b: Id) {
    a in s.note && b in s.note && s.note[a] == b && s.note[b] == a
  }

  predicate Committed(t: Took) {
    t.at == Consumed || t.at == Taken
  }

  /** It can still come to a note. */
  predicate Hopeful(s: State, t: Took) {
    Committed(t) || (t.at != Started && Alive(s, t))
  }

  /** It has been checked, and can still come to a note. */
  predicate Close(s: State, t: Took) {
    Committed(t) || (t.at == Checked && Alive(s, t))
  }

  /** `parent` is part way through taking `child` on, both are there, and neither answers to anybody
      yet. */
  ghost predicate Halfway(s: State, parent: Id, child: Id) {
    && parent != child && parent !in s.note && child !in s.note && child !in s.gone
    && exists t :: t in s.took && s.took[t].parent == parent && s.took[t].child == child
                   && Hopeful(s, s.took[t])
  }

  predicate Opposite(t: Took, u: Took) {
    t.parent == u.child && t.child == u.parent && t.parent != t.child
  }

  ghost predicate Spent(s: State) {
    && (forall t :: t in s.took ==> s.took[t].nonce < s.nonce)
    && (forall r :: r in s.sent + s.put ==> r.nonce < s.nonce)
    && (forall x :: x in s.asking ==> s.asking[x].nonce < s.nonce)
    && (forall t :: t in s.took && s.took[t].at in {Checked, Consumed, Taken} ==>
          s.took[t].parent != s.took[t].child)
  }

  /** Whoever is part way through taking somebody on is not itself asking that one, ... */
  ghost predicate Withdrew(s: State) {
    forall a, b :: Halfway(s, a, b) ==> !(a in s.asking && s.asking[a].to == b)
  }

  /** ... two opposite requests are never both close to a note, ... */
  ghost predicate OneClose(s: State) {
    forall t, u :: t in s.took && u in s.took && Opposite(s.took[t], s.took[u]) ==>
      !(Committed(s.took[t]) && Close(s, s.took[u]))
  }

  /** ... one checked before either answered to anybody has no hopeful opposite, ... */
  ghost predicate CheckedFirst(s: State) {
    forall t, u :: t in s.took && u in s.took && Opposite(s.took[t], s.took[u]) && Overtaken(s, s.took[t]) ==>
      !Hopeful(s, s.took[u])
  }

  /** Checked and still alive, though one of the two has come to answer to somebody since. */
  predicate Overtaken(s: State, t: Took) {
    t.at == Checked && Alive(s, t) && (t.parent in s.note || t.child in s.note)
  }

  /** ... and once the note is written the other way round is closed. */
  ghost predicate Written(s: State) {
    forall t :: t in s.took && Answered(s, s.took[t]) ==> !Close(s, s.took[t])
  }

  /** The one taking on already answers to the one being taken on. */
  predicate Answered(s: State, t: Took) {
    t.parent != t.child && t.parent in s.note && s.note[t.parent] == t.child
  }

  ghost predicate NoRing(s: State) {
    forall a, b :: a != b ==> !RingOfTwo(s, a, b)
  }

  /** What a dead session was part way through died with it. */
  ghost predicate Living(s: State) {
    forall t :: t in s.took ==> s.took[t].parent !in s.gone
  }

  ghost predicate Inv(s: State) {
    Living(s) && Spent(s) && Withdrew(s) && OneClose(s) && CheckedFirst(s) && Written(s) && NoRing(s)
  }

  // ---- Each step keeps it, an asking made half way excepted ------------------------------------

  /** No step but an accept brings a request to life: nonces are never used twice. */
  lemma StaysDead(s: State, step: Step, t: nat)
    requires Spent(s) && Enabled(s, step) && t in s.took && t in After(s, step).took
    ensures var u, v := s.took[t], After(s, step).took[t];
            && v.parent == u.parent && v.child == u.child && v.nonce == u.nonce
            && (Alive(After(s, step), v) ==> Alive(s, u))
            && (Committed(u) ==> Committed(v))
  {
  }

  lemma KeepsSpent(s: State, step: Step)
    requires Spent(s) && Enabled(s, step)
    ensures Spent(After(s, step))
  {
  }

  /** What was asked for, unless this step asked anew. */
  lemma AskedBefore(s: State, step: Step, x: Id)
    requires Enabled(s, step) && x in After(s, step).asking
    ensures (x in s.asking && After(s, step).asking[x] == s.asking[x])
            || (step.Ask? && step.from == x && After(s, step).asking[x].to == step.to)
  {
  }

  lemma HopefulBefore(s: State, step: Step, t: nat)
    requires Spent(s) && Enabled(s, step) && t in After(s, step).took
    requires Hopeful(After(s, step), After(s, step).took[t])
    ensures t in s.took && (Hopeful(s, s.took[t]) || step == Withdraw(t))
  {
    assert t in s.took;
    StaysDead(s, step, t);
  }

  lemma CloseBefore(s: State, step: Step, t: nat)
    requires Spent(s) && Enabled(s, step) && t in After(s, step).took
    requires Close(After(s, step), After(s, step).took[t])
    ensures t in s.took && (Close(s, s.took[t]) || (step.Check? && step.id == t && Alive(s, s.took[t])))
    ensures Hopeful(s, s.took[t])
  {
    assert t in s.took;
    StaysDead(s, step, t);
  }

  lemma CommittedBefore(s: State, step: Step, t: nat)
    requires Spent(s) && Enabled(s, step) && t in After(s, step).took
    requires Committed(After(s, step).took[t])
    ensures t in s.took && (Committed(s.took[t]) || (step == Consume(t) && Close(s, s.took[t])))
  {
  }

  /** Whoever is about to withdraw its asking of the other leaves that other's own asking dead. */
  lemma WithdrawKills(s: State, t: nat, u: nat)
    requires Enabled(s, Withdraw(t)) && u in s.took && Opposite(s.took[t], s.took[u])
    ensures !Alive(After(s, Withdraw(t)), s.took[u])
  {
  }

  lemma NoAsking(s: State, t: nat)
    requires Withdrew(s) && t in s.took && Hopeful(s, s.took[t]) && s.took[t].parent != s.took[t].child
    requires s.took[t].parent !in s.note && s.took[t].child !in s.note && s.took[t].child !in s.gone
    ensures s.took[t].parent in s.asking ==> s.asking[s.took[t].parent].to != s.took[t].child
  {
    assert Halfway(s, s.took[t].parent, s.took[t].child);
  }

  lemma KeepsWithdrew(s: State, step: Step)
    requires Living(s) && Spent(s) && Withdrew(s) && Enabled(s, step)
    requires !(step.Ask? && Halfway(s, step.from, step.to))
    ensures Withdrew(After(s, step))
  {
    hide After, Enabled, Spent;
    var s' := After(s, step);
    forall a, b | Halfway(s', a, b) && a in s'.asking
      ensures s'.asking[a].to != b
    {
      var t :| t in s'.took && s'.took[t].parent == a && s'.took[t].child == b && Hopeful(s', s'.took[t]);
      HopefulBefore(s, step, t);
      StaysDead(s, step, t);
      NotesGrow(s, step);
      AskedBefore(s, step, a);
      if step == Withdraw(t) {
        WithdrawnAsking(s, t);
      } else {
        assert Halfway(s, a, b);
      }
    }
  }

  lemma NotesGrow(s: State, step: Step)
    requires Enabled(s, step)
    ensures forall x :: x in s.note && x !in s.gone ==> x in After(s, step).note
    ensures s.gone <= After(s, step).gone
  {
  }

  lemma KeepsLiving(s: State, step: Step)
    requires Living(s) && Enabled(s, step)
    ensures Living(After(s, step))
  {
  }

  lemma WithdrawnAsking(s: State, t: nat)
    requires Enabled(s, Withdraw(t))
    ensures var a := s.took[t].parent; var s' := After(s, Withdraw(t));
            a in s'.asking ==> s'.asking[a].to != s.took[t].child
  {
  }

  lemma KeepsOneClose(s: State, step: Step)
    requires Inv(s) && Enabled(s, step)
    ensures OneClose(After(s, step))
  {
    hide After, Spent, Written, NoRing;
    var s' := After(s, step);
    forall t, u | t in s'.took && u in s'.took && Opposite(s'.took[t], s'.took[u])
                  && Committed(s'.took[t]) && Close(s', s'.took[u])
      ensures false
    {
      CommittedBefore(s, step, t);
      CloseBefore(s, step, u);
      StaysDead(s, step, t);
      StaysDead(s, step, u);
      assert Opposite(s.took[t], s.took[u]) && Opposite(s.took[u], s.took[t]);
      if !Committed(s.took[t]) {
        NotBothChecked(s, t, u);
      } else if !Close(s, s.took[u]) {
        NoAsking(s, t);
      }
    }
  }

  /** A request close to its note while the opposite one is hopeful: not both still alive. */
  lemma NotBothChecked(s: State, t: nat, u: nat)
    requires Living(s) && Withdrew(s) && CheckedFirst(s) && t in s.took && u in s.took && Opposite(s.took[t], s.took[u])
    requires s.took[t].at == Checked && Alive(s, s.took[t])
    ensures !Hopeful(s, s.took[u])
  {
    if Hopeful(s, s.took[u]) && !Overtaken(s, s.took[t]) {
      NoAsking(s, u);
    }
  }

  lemma KeepsCheckedFirst(s: State, step: Step)
    requires Inv(s) && Enabled(s, step)
    ensures CheckedFirst(After(s, step))
  {
    hide After, Spent, Written, NoRing, OneClose;
    var s' := After(s, step);
    forall t, u | t in s'.took && u in s'.took && Opposite(s'.took[t], s'.took[u])
                  && Overtaken(s', s'.took[t]) && Hopeful(s', s'.took[u])
      ensures false
    {
      HopefulBefore(s, step, u);
      CloseBefore(s, step, t);
      StaysDead(s, step, t);
      StaysDead(s, step, u);
      assert Opposite(s.took[t], s.took[u]) && Opposite(s.took[u], s.took[t]);
      if step == Withdraw(u) {
        WithdrawKills(s, u, t);
      } else if s.took[t].at == Checked {
        NotBothChecked(s, t, u);
      } else {
        CheckLeavesNotes(s, step, t);
      }
    }
  }

  lemma CheckLeavesNotes(s: State, step: Step, t: nat)
    requires Enabled(s, step) && t in s.took && t in After(s, step).took
    requires After(s, step).took[t].at == Checked && s.took[t].at != Checked
    ensures s.took[t].parent !in After(s, step).note && s.took[t].child !in After(s, step).note
  {
  }

  lemma AnsweredBefore(s: State, step: Step, t: nat)
    requires Enabled(s, step) && t in s.took && t in After(s, step).took
    requires After(s, step).took[t].parent == s.took[t].parent && After(s, step).took[t].child == s.took[t].child
    requires Answered(After(s, step), After(s, step).took[t])
    ensures Answered(s, s.took[t])
            || (step.Write? && step.id in s.took && s.took[step.id].at == Taken
                && Opposite(s.took[step.id], s.took[t]))
  {
  }

  lemma KeepsWritten(s: State, step: Step)
    requires Inv(s) && Enabled(s, step)
    ensures Written(After(s, step))
  {
    hide After, Spent, NoRing, CheckedFirst, Withdrew;
    var s' := After(s, step);
    forall t | t in s'.took && Answered(s', s'.took[t]) && Close(s', s'.took[t])
      ensures false
    {
      CloseBefore(s, step, t);
      StaysDead(s, step, t);
      AnsweredBefore(s, step, t);
    }
  }

  lemma KeepsNoRing(s: State, step: Step)
    requires Inv(s) && Enabled(s, step)
    ensures NoRing(After(s, step))
  {
    hide OneClose, CheckedFirst, Withdrew;
    var s' := After(s, step);
    forall a, b | a != b
      ensures !RingOfTwo(s', a, b)
    {
      assert !RingOfTwo(s, a, b);
      if step.Write? {
        assert !Answered(s, s.took[step.id]);
      }
    }
  }

  lemma KeepsInv(s: State, step: Step)
    requires Inv(s) && Enabled(s, step) && !(step.Ask? && Halfway(s, step.from, step.to))
    ensures Inv(After(s, step))
  {
    hide *;
    InvParts(s);
    KeepsLiving(s, step);
    KeepsSpent(s, step);
    KeepsWithdrew(s, step);
    KeepsOneClose(s, step);
    KeepsCheckedFirst(s, step);
    KeepsWritten(s, step);
    KeepsNoRing(s, step);
    InvWhole(After(s, step));
  }

  lemma InvParts(s: State)
    requires Inv(s)
    ensures Living(s) && Spent(s) && Withdrew(s)
  {
  }

  lemma InvWhole(s: State)
    requires Living(s) && Spent(s) && Withdrew(s) && OneClose(s) && CheckedFirst(s) && Written(s) && NoRing(s)
    ensures Inv(s)
  {
  }

  // ---- Whole runs -------------------------------------------------------------------------------

  /** Nothing asked, nothing under way, and no ring of two to begin with. */
  ghost predicate Start(s: State) {
    s.asking == map[] && s.sent == {} && s.put == {} && s.took == map[] && s.gone == {} && NoRing(s)
  }

  /** `steps` leads from `s` to `last`. */
  ghost predicate Runs(s: State, steps: seq<Step>, last: State)
    decreases |steps|
  {
    if steps == [] then
      last == s
    else
      Enabled(s, steps[0]) && Runs(After(s, steps[0]), steps[1..], last)
  }

  /** Nobody along the way asks a session it is half way through taking on. */
  ghost predicate Careful(s: State, steps: seq<Step>)
    decreases |steps|
  {
    steps != [] && Enabled(s, steps[0]) ==>
      && !(steps[0].Ask? && Halfway(s, steps[0].from, steps[0].to))
      && Careful(After(s, steps[0]), steps[1..])
  }

  lemma StartKeepsInv(s: State)
    requires Start(s)
    ensures Inv(s)
  {
  }

  lemma {:induction false} RunKeepsInv(s: State, steps: seq<Step>, last: State)
    requires Inv(s) && Runs(s, steps, last) && Careful(s, steps)
    ensures Inv(last)
    decreases |steps|
  {
    hide After, Enabled, Inv, Halfway;
    if steps != [] {
      KeepsInv(s, steps[0]);
      RunKeepsInv(After(s, steps[0]), steps[1..], last);
    }
  }

  lemma InvHasNoRing(s: State, a: Id, b: Id)
    requires Inv(s) && a != b
    ensures !RingOfTwo(s, a, b)
  {
  }

  /** However the steps of any number of askings and answers fall between one another, no two
      sessions end up each the other's parent, so long as nobody asks one it is half way through
      taking on. */
  lemma NeverEachOthersParent(s: State, steps: seq<Step>, last: State, a: Id, b: Id)
    requires Start(s) && Runs(s, steps, last) && Careful(s, steps) && a != b
    ensures !RingOfTwo(last, a, b)
  {
    hide *;
    StartKeepsInv(s);
    RunKeepsInv(s, steps, last);
    InvHasNoRing(last, a, b);
  }

  // ---- And that condition is the exact one --------------------------------------------------------

  lemma RunsFirst(s: State, step: Step, steps: seq<Step>, last: State)
    requires Enabled(s, step) && !step.Ask? && Runs(After(s, step), steps, last) && Careful(After(s, step), steps)
    ensures Runs(s, [step] + steps, last) && Careful(s, [step] + steps)
  {
    hide After, Enabled, Halfway;
    assert ([step] + steps)[1..] == steps;
  }

  lemma {:induction false} RunsOn(s: State, steps: seq<Step>, mid: State, more: seq<Step>, last: State)
    requires Runs(s, steps, mid) && Careful(s, steps) && Runs(mid, more, last) && Careful(mid, more)
    ensures Runs(s, steps + more, last) && Careful(s, steps + more)
    decreases |steps|
  {
    hide After, Enabled, Halfway;
    if steps == [] {
      assert steps + more == more;
    } else {
      RunsOn(After(s, steps[0]), steps[1..], mid, more, last);
      assert (steps + more)[1..] == steps[1..] + more;
    }
  }

  function Left(t: Took): nat {
    match t.at
    case Started => 4
    case Withdrawn => 3
    case Checked => 2
    case Consumed => 1
    case Taken => 0
  }

  /** What a hopeful request's remaining checks leave, every one of them passing. */
  function Home(s: State, t: nat): State
    requires t in s.took
  {
    var u := s.took[t];
    s.(took := s.took[t := u.(at := Taken)], asking := if Committed(u) then s.asking else s.asking - {u.child})
  }

  function Onward(s: State, t: nat): Step
    requires t in s.took && s.took[t].at != Started && s.took[t].at != Taken
  {
    match s.took[t].at
    case Withdrawn => Check(t, true)
    case Checked => Consume(t)
    case Consumed => Recheck(t, true)
  }

  ghost predicate CanGoHome(s: State, t: nat) {
    && t in s.took && Hopeful(s, s.took[t]) && s.took[t].parent != s.took[t].child
    && s.took[t].parent !in s.note && s.took[t].child !in s.note
    && s.took[t].parent !in s.gone && s.took[t].child !in s.gone
  }

  lemma OneOnward(s: State, t: nat)
    requires CanGoHome(s, t) && s.took[t].at != Taken
    ensures Enabled(s, Onward(s, t))
    ensures var s' := After(s, Onward(s, t)); CanGoHome(s', t) && Left(s'.took[t]) < Left(s.took[t]) && Home(s', t) == Home(s, t)
  {
    var s' := After(s, Onward(s, t));
    assert Home(s', t).took == Home(s, t).took;
    assert Home(s', t).asking == Home(s, t).asking;
  }

  lemma {:induction false} BringHome(s: State, t: nat) returns (steps: seq<Step>)
    requires CanGoHome(s, t)
    ensures Runs(s, steps, Home(s, t)) && Careful(s, steps)
    decreases Left(s.took[t])
  {
    if s.took[t].at == Taken {
      steps := [];
      assert s.took[t := s.took[t].(at := Taken)] == s.took;
    } else {
      OneOnward(s, t);
      var rest := BringHome(After(s, Onward(s, t)), t);
      RunsFirst(s, Onward(s, t), rest, Home(s, t));
      steps := [Onward(s, t)] + rest;
    }
  }

  /** `a` asked `b`: the request arrives, is accepted and withdraws `b`'s own asking. */
  lemma TakenUp(s: State, a: Id, b: Id, r: Request, u: nat) returns (steps: seq<Step>, last: State)
    requires a != b && a !in s.note && b !in s.note && r in s.sent && r == Request(a, b, r.nonce)
    requires a in s.asking && s.asking[a] == Asked(b, r.nonce) && u !in s.took && a !in s.gone && b !in s.gone
    ensures Runs(s, steps, last) && Careful(s, steps) && CanGoHome(last, u) && last.note == s.note
    ensures last.took == s.took[u := Took(b, a, r.nonce, Withdrawn)]
  {
    var one := After(s, Arrive(r, true));
    var two := After(one, Accept(r, u));
    last := After(two, Withdraw(u));
    assert last.took == s.took[u := Took(b, a, r.nonce, Withdrawn)];
    RunsFirst(two, Withdraw(u), [], last);
    RunsFirst(one, Accept(r, u), [Withdraw(u)], last);
    steps := [Accept(r, u)] + [Withdraw(u)];
    RunsFirst(s, Arrive(r, true), steps, last);
    steps := [Arrive(r, true)] + steps;
  }

  lemma BothWritten(s: State, t: nat, u: nat)
    requires t in s.took && u in s.took && t != u && Opposite(s.took[t], s.took[u])
    requires s.took[t].at == Taken && s.took[u].at == Taken
    ensures Enabled(s, Write(u)) && Enabled(After(s, Write(u)), Write(t))
    ensures RingOfTwo(After(After(s, Write(u)), Write(t)), s.took[t].parent, s.took[t].child)
  {
  }

  lemma {:induction false} Beyond(xs: set<nat>) returns (n: nat)
    ensures forall x :: x in xs ==> x < n
    decreases |xs|
  {
    if xs == {} {
      n := 0;
    } else {
      var x :| x in xs;
      var below := Beyond(xs - {x});
      n := if below <= x then x + 1 else below;
      assert xs == (xs - {x}) + {x};
    }
  }

  /** Once a session has asked one it is half way through taking on, both can come about. */
  lemma RingAhead(s: State, a: Id, b: Id) returns (steps: seq<Step>, last: State)
    requires Living(s) && Spent(s) && Halfway(s, a, b)
    ensures Enabled(s, Ask(a, b))
    ensures Runs(After(s, Ask(a, b)), steps, last) && Careful(After(s, Ask(a, b)), steps)
    ensures RingOfTwo(last, a, b)
  {
    var start := After(s, Ask(a, b));
    var t :| t in s.took && s.took[t].parent == a && s.took[t].child == b && Hopeful(s, s.took[t]);
    var u := Beyond(s.took.Keys);
    steps, last := RingFrom(start, a, b, t, u, Request(a, b, s.nonce));
  }

  lemma RingFrom(s: State, a: Id, b: Id, t: nat, u: nat, r: Request) returns (steps: seq<Step>, last: State)
    requires CanGoHome(s, t) && s.took[t].parent == a && s.took[t].child == b && u !in s.took
    requires r in s.sent && r == Request(a, b, r.nonce) && a in s.asking && s.asking[a] == Asked(b, r.nonce)
    ensures Runs(s, steps, last) && Careful(s, steps) && RingOfTwo(last, a, b)
  {
    hide Runs, Careful, CanGoHome, RingOfTwo, After, Enabled;
    GoingHome(s, t);
    var first := BringHome(s, t);
    var one := Home(s, t);
    var second, two := TakenUp(one, a, b, r, u);
    var third := BringHome(two, u);
    var three := Home(two, u);
    BothWritten(three, t, u);
    var four := After(three, Write(u));
    last := After(four, Write(t));
    RunsNowhere(last);
    RunsFirst(four, Write(t), [], last);
    RunsFirst(three, Write(u), [Write(t)] + [], last);
    RunsOn(two, third, three, [Write(u)] + ([Write(t)] + []), last);
    var rest := third + ([Write(u)] + ([Write(t)] + []));
    RunsOn(one, second, two, rest, last);
    RunsOn(s, first, one, second + rest, last);
    steps := first + (second + rest);
  }

  lemma RunsNowhere(s: State)
    ensures Runs(s, [], s) && Careful(s, [])
  {
  }

  lemma GoingHome(s: State, t: nat)
    requires CanGoHome(s, t)
    ensures t in s.took && s.took[t].parent != s.took[t].child
    ensures s.took[t].parent !in s.note && s.took[t].child !in s.note
    ensures s.took[t].parent !in s.gone && s.took[t].child !in s.gone
  {
  }

  ghost predicate RingPossible(s: State, a: Id, b: Id) {
    exists steps, last :: Runs(s, steps, last) && Careful(s, steps) && RingOfTwo(last, a, b)
  }

  /** From any state reached with care, asking is safe exactly when it is not half way: otherwise
      what is already under way can end with each the other's parent. */
  lemma AskingIsSafeUnlessHalfway(s: State, a: Id, b: Id)
    requires Inv(s) && a != b && Enabled(s, Ask(a, b))
    ensures RingPossible(After(s, Ask(a, b)), a, b) <==> Halfway(s, a, b)
  {
    hide After, Halfway, Runs, Careful, RingOfTwo, Living, Withdrew, OneClose, CheckedFirst, Written, NoRing, Spent;
    var s' := After(s, Ask(a, b));
    if Halfway(s, a, b) {
      var steps, last := RingAhead(s, a, b);
    } else {
      KeepsInv(s, Ask(a, b));
      forall steps, last | Runs(s', steps, last) && Careful(s', steps)
        ensures !RingOfTwo(last, a, b)
      {
        RunKeepsInv(s', steps, last);
        InvHasNoRing(last, a, b);
      }
    }
  }

  function Nothing(): State {
    State(map[], map[], {}, {}, map[], 0, {})
  }

  /** It is reachable: psi takes beta on, asks beta while that is under way, and beta takes psi on. */
  lemma RingsHappen() returns (steps: seq<Step>, last: State)
    ensures Start(Nothing()) && Runs(Nothing(), steps, last) && RingOfTwo(last, "psi", "beta")
  {
    var s := After(Nothing(), Ask("beta", "psi"));
    var first, mid := TakenUp(s, "beta", "psi", Request("beta", "psi", 0), 0);
    assert mid.took[0] == Took("psi", "beta", 0, Withdrawn);
    StartKeepsInv(Nothing());
    NothingHalfway();
    KeepsInv(Nothing(), Ask("beta", "psi"));
    RunKeepsInv(s, first, mid);
    assert Halfway(mid, "psi", "beta");
    var second;
    second, last := RingAhead(mid, "psi", "beta");
    RunsJoin(s, first, mid, [Ask("psi", "beta")] + second, last);
    steps := [Ask("beta", "psi")] + (first + ([Ask("psi", "beta")] + second));
  }

  lemma NothingHalfway()
    ensures Start(Nothing()) && !Halfway(Nothing(), "beta", "psi")
  {
  }

  lemma {:induction false} RunsJoin(s: State, steps: seq<Step>, mid: State, more: seq<Step>, last: State)
    requires Runs(s, steps, mid) && Runs(mid, more, last)
    ensures Runs(s, steps + more, last)
    decreases |steps|
  {
    hide After, Enabled;
    if steps == [] {
      assert steps + more == more;
    } else {
      RunsJoin(After(s, steps[0]), steps[1..], mid, more, last);
      assert (steps + more)[1..] == steps[1..] + more;
    }
  }

  // ---- Longer rings ---------------------------------------------------------------------------------

  /** A note is written for a session its new parent already hangs under. */
  ghost predicate Closes(s: State, step: Step) {
    step.Write? && step.id in s.took && Below(s.note, s.took[step.id].parent, s.took[step.id].child)
  }

  /** No other step makes a ring, and that one always does. */
  lemma StepKeepsForest(s: State, step: Step)
    requires Forest(s.note) && Enabled(s, step)
    ensures Forest(After(s, step).note) <==> !Closes(s, step)
  {
    match step
    case Write(t) => HangKeepsForest(s.note, s.took[t].child, s.took[t].parent);
    case ComeUp(c, p) =>
      HangKeepsForest(s.note, c, p);
      if Below(s.note, p, c) {
        var z := BelowLast(s.note, p, c);
      }
    case Sweep(x) => CutKeepsForest(s.note, x);
    case _ =>
  }

  ghost predicate AlwaysForest(s: State, steps: seq<Step>)
    decreases |steps|
  {
    && Forest(s.note)
    && (steps != [] && Enabled(s, steps[0]) ==> AlwaysForest(After(s, steps[0]), steps[1..]))
  }

  ghost predicate NeverCloses(s: State, steps: seq<Step>)
    decreases |steps|
  {
    steps != [] && Enabled(s, steps[0]) ==>
      !Closes(s, steps[0]) && NeverCloses(After(s, steps[0]), steps[1..])
  }

  /** Over whole runs: the notes are free of rings at every point if and only if none is written for a
      session its new parent hangs under at that moment. */
  lemma {:induction false} ForestExactly(s: State, steps: seq<Step>, last: State)
    requires Forest(s.note) && Runs(s, steps, last)
    ensures AlwaysForest(s, steps) <==> NeverCloses(s, steps)
    decreases |steps|
  {
    hide After, Enabled, Forest, Closes;
    if steps != [] {
      StepKeepsForest(s, steps[0]);
      if !Closes(s, steps[0]) {
        ForestExactly(After(s, steps[0]), steps[1..], last);
      }
    }
  }

  // ---- A ring of three, with everybody careful ----------------------------------------------------------

  lemma {:induction false} Goes(s: State, steps: seq<Step>, mid: State, step: Step)
    requires Runs(s, steps, mid) && Careful(s, steps) && Enabled(mid, step)
    requires !(step.Ask? && Halfway(mid, step.from, step.to))
    ensures Runs(s, steps + [step], After(mid, step)) && Careful(s, steps + [step])
    decreases |steps|
  {
    hide After, Enabled, Halfway;
    if steps == [] {
      assert (steps + [step])[1..] == [];
    } else {
      Goes(After(s, steps[0]), steps[1..], mid, step);
      assert (steps + [step])[1..] == steps[1..] + [step];
    }
  }

  /** A request of `a` to `b` goes all the way to its note, but for the writing, `b` having asked somebody
      else and nobody answering to anybody yet. */
  lemma AllButWritten(s: State, a: Id, b: Id, c: Id, n: nat, m: nat, u: nat) returns (steps: seq<Step>, last: State)
    requires a != b && a != c && s.note == map[] && s.gone == {} && u !in s.took
    requires Request(a, b, n) in s.sent && Request(a, b, n) !in s.put
    requires a in s.asking && s.asking[a] == Asked(b, n) && (b in s.asking ==> s.asking[b] == Asked(c, m))
    ensures Runs(s, steps, last) && Careful(s, steps)
    ensures last == s.(sent := s.sent - {Request(a, b, n)}, took := s.took[u := Took(b, a, n, Taken)],
                       asking := s.asking - {a})
  {
    hide Runs, Careful, Halfway;
    var r := Request(a, b, n);
    RunsNowhere(s);
    Goes(s, [], s, Arrive(r, true));
    steps, last := [] + [Arrive(r, true)], After(s, Arrive(r, true));
    Goes(s, steps, last, Accept(r, u));
    steps, last := steps + [Accept(r, u)], After(last, Accept(r, u));
    assert last.put == s.put;
    Goes(s, steps, last, Withdraw(u));
    steps, last := steps + [Withdraw(u)], After(last, Withdraw(u));
    Goes(s, steps, last, Check(u, true));
    steps, last := steps + [Check(u, true)], After(last, Check(u, true));
    Goes(s, steps, last, Consume(u));
    steps, last := steps + [Consume(u)], After(last, Consume(u));
    Goes(s, steps, last, Recheck(u, true));
    steps, last := steps + [Recheck(u, true)], After(last, Recheck(u, true));
    assert last.took == s.took[u := Took(b, a, n, Taken)];
  }

  const THREE := State(map[], map["nu" := Asked("xi", 0), "xi" := Asked("pi", 1), "pi" := Asked("nu", 2)],
                       {Request("nu", "xi", 0), Request("xi", "pi", 1), Request("pi", "nu", 2)}, {}, map[], 3, {})

  /** Three sessions ask in a circle. */
  lemma ThreeAsk() returns (steps: seq<Step>)
    ensures Runs(Nothing(), steps, THREE) && Careful(Nothing(), steps)
  {
    hide Runs, Careful;
    RunsNowhere(Nothing());
    Goes(Nothing(), [], Nothing(), Ask("nu", "xi"));
    var last := After(Nothing(), Ask("nu", "xi"));
    steps := [] + [Ask("nu", "xi")];
    Goes(Nothing(), steps, last, Ask("xi", "pi"));
    steps, last := steps + [Ask("xi", "pi")], After(last, Ask("xi", "pi"));
    Goes(Nothing(), steps, last, Ask("pi", "nu"));
    steps, last := steps + [Ask("pi", "nu")], After(last, Ask("pi", "nu"));
    assert last == THREE;
  }

  const AGREED := THREE.(asking := map[], sent := {},
                         took := map[0 := Took("xi", "nu", 0, Taken), 1 := Took("pi", "xi", 1, Taken),
                                     2 := Took("nu", "pi", 2, Taken)])

  /** Each takes the one that asked it on, all checked before any note is written. */
  lemma ThreeAgree() returns (steps: seq<Step>)
    ensures Runs(THREE, steps, AGREED) && Careful(THREE, steps)
  {
    hide Runs, Careful;
    var first, one := AllButWritten(THREE, "nu", "xi", "pi", 0, 1, 0);
    var second, two := AllButWritten(one, "xi", "pi", "nu", 1, 2, 1);
    var third, three := AllButWritten(two, "pi", "nu", "xi", 2, 0, 2);
    assert three == AGREED;
    RunsOn(one, second, two, third, three);
    RunsOn(THREE, first, one, second + third, three);
    steps := first + (second + third);
  }

  /** The check that keeps two from each becoming the other's parent does not keep three: nobody asks one
      it is half way through taking on, and the notes end up going round. */
  lemma RingsOfThreeHappen() returns (steps: seq<Step>, last: State)
    ensures Start(Nothing()) && Runs(Nothing(), steps, last) && Careful(Nothing(), steps)
    ensures last.note == map["nu" := "xi", "xi" := "pi", "pi" := "nu"] && !Forest(last.note)
  {
    hide Runs, Careful;
    var first := ThreeAsk();
    var second := ThreeAgree();
    RunsOn(Nothing(), first, THREE, second, AGREED);
    steps := first + second;
    Goes(Nothing(), steps, AGREED, Write(0));
    steps, last := steps + [Write(0)], After(AGREED, Write(0));
    Goes(Nothing(), steps, last, Write(1));
    steps, last := steps + [Write(1)], After(last, Write(1));
    Goes(Nothing(), steps, last, Write(2));
    steps, last := steps + [Write(2)], After(last, Write(2));
    assert Up(last.note, "xi", 2) == Some("nu") by {
      assert Up(last.note, "nu", 0) == Some("nu");
      assert Up(last.note, "pi", 1) == Some("nu");
    }
    RingNeverEnds(last.note, "nu", 2);
  }

  // ---- What one adoption comes to ----------------------------------------------------------------------

  /** `a` asks `b`, both mains and neither in anybody's hands: with nothing in between it is `b`'s child in
      the end, its asking gone, and nothing else is changed. */
  lemma AdoptionRuns(s: State, a: Id, b: Id, u: nat) returns (steps: seq<Step>, last: State)
    requires a != b && s.note == map[] && s.gone == {} && u !in s.took && b !in s.asking
    requires Request(a, b, s.nonce) !in s.sent + s.put
    ensures Runs(s, steps, last)
    ensures last == s.(note := map[a := b], asking := s.asking - {a}, nonce := s.nonce + 1)
  {
    hide Runs, Careful, Halfway;
    var asked := After(s, Ask(a, b));
    var rest, taken := AllButWritten(asked, a, b, if a == "" then "x" else "", s.nonce, 0, u);
    RunsNowhere(taken);
    last := After(taken, Write(u));
    CarelessGoes(asked, rest, taken, Write(u));
    CarelessFirst(s, Ask(a, b), rest + [Write(u)], last);
    steps := [Ask(a, b)] + (rest + [Write(u)]);
    assert last.took == s.took && last.sent == s.sent && last.asking == s.asking - {a};
  }

  lemma {:induction false} CarelessGoes(s: State, steps: seq<Step>, mid: State, step: Step)
    requires Runs(s, steps, mid) && Enabled(mid, step)
    ensures Runs(s, steps + [step], After(mid, step))
    decreases |steps|
  {
    hide After, Enabled;
    if steps == [] {
      assert Runs(After(mid, step), [], After(mid, step));
    } else {
      CarelessGoes(After(s, steps[0]), steps[1..], mid, step);
      assert (steps + [step])[1..] == steps[1..] + [step];
    }
  }

  lemma CarelessFirst(s: State, step: Step, steps: seq<Step>, last: State)
    requires Enabled(s, step) && Runs(After(s, step), steps, last)
    ensures Runs(s, [step] + steps, last)
  {
    hide After, Enabled;
    assert ([step] + steps)[1..] == steps;
  }

  /** A request that fails is given up and nothing comes of it; the note and the asking are as they were. */
  lemma FailedComesToNothing(s: State, t: nat)
    requires t in s.took
    ensures After(s, Fail(t)).took == s.took - {t} && !Enabled(After(s, Fail(t)), Write(t))
    ensures After(s, Fail(t)).note == s.note && After(s, Fail(t)).asking == s.asking
  {
  }

  /** A session that has died and been swept answers to nobody, asks nobody and takes nobody on, whatever
      was under way; everybody else's note and asking stands. */
  lemma DeadAndSwept(s: State, x: Id)
    ensures Enabled(s, Die(x)) && Enabled(After(s, Die(x)), Sweep(x))
    ensures var last := After(After(s, Die(x)), Sweep(x));
            && x in last.gone && x !in last.note && x !in last.asking
            && (forall t :: t in last.took ==> last.took[t].parent != x)
            && (forall y: Id :: !Enabled(last, Ask(x, y)))
            && (forall y :: y != x ==> (y in last.note <==> y in s.note) && (y in last.asking <==> y in s.asking))
            && (forall y :: y != x && y in s.note ==> last.note[y] == s.note[y])
            && (forall y :: y != x && y in s.asking ==> last.asking[y] == s.asking[y])
  {
  }

  /** A child that comes up answers to who named it, and may neither take a main on nor be taken on. */
  lemma ChildComesUp(s: State, c: Id, p: Id, other: Id, room: bool)
    requires Enabled(s, ComeUp(c, p))
    ensures var n := After(s, ComeUp(c, p));
            && c in n.note && n.note[c] == p && !Clear(n, c, other, room) && !Clear(n, other, c, room)
            && n.note - {c} == s.note
  {
  }

  /** At every one of the three checks both sessions still answer to nobody: one that has come to answer to
      somebody since the last is not taken on. */
  lemma CheckedEachTime(s: State, t: nat, room: bool)
    requires t in s.took && (s.took[t].parent in s.note || s.took[t].child in s.note || !room)
    ensures !Enabled(s, Check(t, room)) && !Enabled(s, Recheck(t, room))
    ensures !Enabled(s, Arrive(Request(s.took[t].child, s.took[t].parent, s.took[t].nonce), room))
  {
  }
}
