/** The metering proxy's ledger: an append-only log of reservations, settlements and corrections that
    is read back into one committed total, and the cap every request is held against. */
module Proxy {
  import opened Options
  import opened Sums

  const U64_MAX := 0xFFFF_FFFF_FFFF_FFFF

  type Id = string

  /** One line of the ledger; `Other` is a line that does not parse or names no such kind. */
  datatype Row =
    | Reserved(id: Id, micros: nat)
    | Settled(id: Id, micros: nat)
    | Corrected(id: Id, micros: nat)
    | Other

  // ---- What a log means --------------------------------------------------------------------------------

  predicate Of(row: Row, id: Id) {
    !row.Other? && row.id == id
  }

  predicate Pays(row: Row) {
    row.Settled? || row.Corrected?
  }

  /** A reservation counts until its request is settled or reserved again. */
  predicate StillOpen(row: Row, later: seq<Row>)
    requires row.Reserved?
  {
    later == []
    || (if Of(later[0], row.id) && !later[0].Corrected? then false else StillOpen(row, later[1..]))
  }

  /** A payment counts unless the next one under its id puts it right. */
  predicate StillPaid(row: Row, later: seq<Row>)
    requires Pays(row)
  {
    later == []
    || (if Of(later[0], row.id) && Pays(later[0]) then later[0].Settled? else StillPaid(row, later[1..]))
  }

  /** What is reserved and was never settled. */
  function Reserves(rows: seq<Row>): nat {
    if rows == [] then 0
    else (if rows[0].Reserved? && StillOpen(rows[0], rows[1..]) then rows[0].micros else 0) + Reserves(rows[1..])
  }

  /** What was settled, as last corrected. */
  function Payments(rows: seq<Row>): nat {
    if rows == [] then 0
    else (if Pays(rows[0]) && StillPaid(rows[0], rows[1..]) then rows[0].micros else 0) + Payments(rows[1..])
  }

  function Committed(rows: seq<Row>): nat {
    Reserves(rows) + Payments(rows)
  }

  // ---- The log read from its end ---------------------------------------------------------------------

  /** What `id` has open after these rows, as the reader's `open` holds it. */
  function OpenOf(rows: seq<Row>, id: Id): Option<nat> {
    if rows == [] then None
    else
      var row := rows[|rows| - 1];
      if Of(row, id) && row.Reserved? then Some(row.micros)
      else if Of(row, id) && row.Settled? then None
      else OpenOf(rows[..|rows| - 1], id)
  }

  /** What `id` last paid, as the reader's `last` holds it. */
  function LastOf(rows: seq<Row>, id: Id): Option<nat> {
    if rows == [] then None
    else
      var row := rows[|rows| - 1];
      if Of(row, id) && Pays(row) then Some(row.micros) else LastOf(rows[..|rows| - 1], id)
  }

  function Or0(n: Option<nat>): nat {
    if n.Some? then n.value else 0
  }

  lemma {:induction false} OpenAppends(row: Row, later: seq<Row>, r: Row)
    requires row.Reserved?
    ensures StillOpen(row, later + [r]) <==> StillOpen(row, later) && !(Of(r, row.id) && !r.Corrected?)
  {
    if later == [] {
      assert later + [r] == [r];
    } else {
      assert (later + [r])[1..] == later[1..] + [r];
      OpenAppends(row, later[1..], r);
    }
  }

  /** No payment under `id` in here. */
  predicate Unpaid(rows: seq<Row>, id: Id) {
    forall row :: row in rows ==> !(Of(row, id) && Pays(row))
  }

  lemma {:induction false} PaidAppends(row: Row, later: seq<Row>, r: Row)
    requires Pays(row)
    ensures StillPaid(row, later + [r]) <==>
            StillPaid(row, later) && !(Unpaid(later, row.id) && Of(r, row.id) && r.Corrected?)
  {
    if later == [] {
      assert later + [r] == [r];
    } else {
      assert (later + [r])[1..] == later[1..] + [r];
      assert later == [later[0]] + later[1..];
      PaidAppends(row, later[1..], r);
    }
  }

  /** A row in front matters to what is open only where nothing after it does. */
  lemma {:induction false} OpenFront(h: Row, t: seq<Row>, id: Id)
    ensures OpenOf([h] + t, id) ==
            if h.Reserved? && h.id == id && StillOpen(h, t) then Some(h.micros) else OpenOf(t, id)
    ensures h.Reserved? && h.id == id && StillOpen(h, t) ==> OpenOf(t, id).None?
  {
    if t == [] {
      assert [h] + t == [h];
    } else {
      var front, row := t[..|t| - 1], t[|t| - 1];
      assert t == front + [row];
      assert ([h] + t)[..|t|] == [h] + front;
      OpenFront(h, front, id);
      if h.Reserved? {
        OpenAppends(h, front, row);
      }
    }
  }

  lemma {:induction false} LastFront(h: Row, t: seq<Row>, id: Id)
    ensures LastOf([h] + t, id) ==
            if Of(h, id) && Pays(h) && Unpaid(t, id) then Some(h.micros) else LastOf(t, id)
    ensures LastOf(t, id).None? <==> Unpaid(t, id)
  {
    if t == [] {
      assert [h] + t == [h];
    } else {
      var front, row := t[..|t| - 1], t[|t| - 1];
      assert t == front + [row];
      assert ([h] + t)[..|t|] == [h] + front;
      LastFront(h, front, id);
    }
  }

  lemma {:induction false} UnpaidStands(row: Row, later: seq<Row>)
    requires Pays(row) && Unpaid(later, row.id)
    ensures StillPaid(row, later)
  {
    if later != [] {
      UnpaidStands(row, later[1..]);
    }
  }

  /** One row more: what it adds, and the one row it takes the place of. */
  lemma {:induction false} ReservesAppend(rows: seq<Row>, r: Row)
    ensures Reserves(rows + [r]) ==
            Reserves(rows) + (if r.Reserved? then r.micros else 0)
            - (if r.Reserved? || r.Settled? then Or0(OpenOf(rows, r.id)) else 0)
  {
    if rows == [] {
      assert rows + [r] == [r];
    } else {
      var h, t := rows[0], rows[1..];
      assert (rows + [r])[1..] == t + [r];
      assert rows == [h] + t;
      ReservesAppend(t, r);
      if h.Reserved? {
        OpenAppends(h, t, r);
      }
      if !r.Other? {
        OpenFront(h, t, r.id);
      }
    }
  }

  lemma {:induction false} PaymentsAppend(rows: seq<Row>, r: Row)
    ensures Payments(rows + [r]) ==
            Payments(rows) + (if Pays(r) then r.micros else 0)
            - (if r.Corrected? then Or0(LastOf(rows, r.id)) else 0)
  {
    if rows == [] {
      assert rows + [r] == [r];
    } else {
      var h, t := rows[0], rows[1..];
      assert (rows + [r])[1..] == t + [r];
      assert rows == [h] + t;
      PaymentsAppend(t, r);
      if Pays(h) {
        PaidAppends(h, t, r);
        if Unpaid(t, h.id) {
          UnpaidStands(h, t);
        }
      }
      if !r.Other? {
        LastFront(h, t, r.id);
      }
    }
  }

  /** The reader never takes back more than it has: `.min(settled)` is never what decides. */
  lemma {:induction false} LastIsCounted(rows: seq<Row>, id: Id)
    ensures Or0(LastOf(rows, id)) <= Payments(rows)
  {
    if rows != [] {
      var h, t := rows[0], rows[1..];
      assert rows == [h] + t;
      LastIsCounted(t, id);
      LastFront(h, t, id);
      if Of(h, id) && Pays(h) && Unpaid(t, id) {
        UnpaidStands(h, t);
      }
    }
  }

  // ---- The reader ----------------------------------------------------------------------------------------

  ghost predicate OpenIs(open: map<Id, nat>, rows: seq<Row>) {
    forall id :: (id in open <==> OpenOf(rows, id).Some?) && (id in open ==> OpenOf(rows, id) == Some(open[id]))
  }

  ghost predicate LastIs(last: map<Id, nat>, rows: seq<Row>) {
    forall id :: (id in last <==> LastOf(rows, id).Some?) && (id in last ==> LastOf(rows, id) == Some(last[id]))
  }

  /** A sum along the way does not fit in 64 bits; the build checks every addition, so the reader
      stops there. */
  ghost predicate Overflows(rows: seq<Row>) {
    Committed(rows) > U64_MAX || exists n :: 0 <= n <= |rows| && Paid(rows, n) > U64_MAX
  }

  function Paid(rows: seq<Row>, n: nat): nat
    requires n <= |rows|
  {
    Payments(rows[..n])
  }

  lemma OneMore(rows: seq<Row>, n: nat)
    requires n < |rows|
    ensures rows[..n + 1] == rows[..n] + [rows[n]] && rows[..n + 1][..n] == rows[..n]
  {
  }

  function OpenAfter(open: map<Id, nat>, r: Row): map<Id, nat> {
    if r.Reserved? then open[r.id := r.micros] else if r.Settled? then open - {r.id} else open
  }

  lemma OpenStep(rows: seq<Row>, r: Row, open: map<Id, nat>)
    requires OpenIs(open, rows)
    ensures OpenIs(OpenAfter(open, r), rows + [r])
  {
    assert (rows + [r])[..|rows|] == rows;
  }

  lemma LastStep(rows: seq<Row>, r: Row, last: map<Id, nat>)
    requires LastIs(last, rows)
    ensures LastIs(if Pays(r) then last[r.id := r.micros] else last, rows + [r])
  {
    assert (rows + [r])[..|rows|] == rows;
  }

  lemma OpenSums(rows: seq<Row>, r: Row, open: map<Id, nat>, open': map<Id, nat>)
    requires OpenIs(open, rows) && Sum(open) == Reserves(rows)
    requires open' == OpenAfter(open, r)
    ensures Sum(open') == Reserves(rows + [r])
  {
    ReservesAppend(rows, r);
    match r
    case Reserved(id, micros) => SumReplaced(open, id, micros);
    case Settled(id, _) =>
      if id in open {
        SumWithout(open, id);
      } else {
        assert open - {id} == open;
      }
    case _ =>
  }

  /** `open.values().sum()`. */
  method SumOf(open: map<Id, nat>) returns (total: nat)
    ensures total == Sum(open)
  {
    total := 0;
    var left := open;
    while left != map[]
      invariant total + Sum(left) == Sum(open)
      decreases |left|
    {
      var id :| id in left;
      SumWithout(left, id);
      total := total + left[id];
      left := left - {id};
    }
  }

  lemma NothingYet(rows: seq<Row>)
    ensures OpenIs(map[], rows[..0]) && LastIs(map[], rows[..0])
    ensures Payments(rows[..0]) == 0 && Reserves(rows[..0]) == 0 && Paid(rows, 0) == 0 && Sum<Id>(map[]) == 0
  {
  }

  lemma LastHolds(last: map<Id, nat>, rows: seq<Row>, id: Id)
    requires LastIs(last, rows)
    ensures (if id in last then last[id] else 0) == Or0(LastOf(rows, id)) <= Payments(rows)
  {
    LastIsCounted(rows, id);
  }

  lemma NeverOver(rows: seq<Row>)
    requires forall n :: 0 <= n <= |rows| ==> Paid(rows, n) <= U64_MAX
    ensures Overflows(rows) <==> Payments(rows) + Reserves(rows) > U64_MAX
  {
  }

  /** Adds every line up as it goes, keeping what each request has open and last paid. It finds what
      the log means, unless a sum along the way does not fit. */
  method ReadCommitted(rows: seq<Row>) returns (r: Option<nat>)
    ensures r == if Overflows(rows) then None else Some(Committed(rows))
  {
    hide OpenIs, LastIs, Payments, Reserves, LastOf, OpenOf, Paid;
    var open: map<Id, nat> := map[];
    var last: map<Id, nat> := map[];
    var settled: nat := 0;
    var n := 0;
    NothingYet(rows);
    while n < |rows|
      invariant 0 <= n <= |rows|
      invariant OpenIs(open, rows[..n]) && LastIs(last, rows[..n])
      invariant settled == Payments(rows[..n]) && Sum(open) == Reserves(rows[..n])
      invariant forall m :: 0 <= m <= n ==> Paid(rows, m) <= U64_MAX
    {
      ghost var before := rows[..n];
      ghost var open0 := open;
      OneMore(rows, n);
      OpenStep(before, rows[n], open);
      LastStep(before, rows[n], last);
      PaymentsAppend(before, rows[n]);
      match rows[n] {
        case Reserved(id, micros) =>
          open := open[id := micros];
        case Settled(id, micros) =>
          open := open - {id};
          settled := settled + micros;
          last := last[id := micros];
        case Corrected(id, micros) =>
          LastHolds(last, before, id);
          settled := settled - Min(if id in last then last[id] else 0, settled) + micros;
          last := last[id := micros];
        case Other =>
      }
      OpenSums(before, rows[n], open0, open);
      PaidIs(rows, n + 1);
      if settled > U64_MAX {
        return None;
      }
      n := n + 1;
    }
    assert rows[..n] == rows;
    NeverOver(rows);
    var reserved := SumOf(open);
    return if settled + reserved > U64_MAX then None else Some(settled + reserved);
  }

  lemma PaidIs(rows: seq<Row>, n: nat)
    requires n <= |rows|
    ensures Paid(rows, n) == Payments(rows[..n])
  {
  }

  // ---- What a request may cost, and what it is charged ------------------------------------------------

  datatype Terms = Terms(cap: nat, inputPrice: nat, outputPrice: nat, outputBound: nat)

  function DivCeil(n: nat): nat {
    (n + 999_999) / 1_000_000
  }

  /** `None` where the arithmetic does not fit: the build checks it, and the request goes no further. */
  function Reservation(terms: Terms, bytes: nat, maxTokens: Option<nat>): Option<nat> {
    var output := if maxTokens.Some? then maxTokens.value else terms.outputBound;
    var most := bytes * terms.inputPrice + output * terms.outputPrice;
    if most > U64_MAX then None else Some(DivCeil(most))
  }

  /** What the provider said: nothing, its own figure (none where that is below nought), or counts. */
  datatype Usage = Silent | Figure(micros: Option<nat>) | Tokens(prompt: Option<nat>, completion: Option<nat>)

  function Charge(terms: Terms, usage: Usage, reserved: nat): nat {
    match usage
    case Silent => reserved
    case Figure(None) => reserved
    case Figure(Some(micros)) => Min(micros, U64_MAX)
    case Tokens(None, _) => reserved
    case Tokens(Some(prompt), completion) =>
      var input := Min(prompt * terms.inputPrice, U64_MAX);
      var output := Min(Or0(completion) * terms.outputPrice, U64_MAX);
      DivCeil(Min(input + output, U64_MAX))
  }

  /** What the row a request leaves behind says it came to. */
  function Settlement(terms: Terms, usage: Usage, refused: bool, reserved: nat): nat {
    if usage.Silent? && refused then 0 else Charge(terms, usage, reserved)
  }

  /** Whole micro-dollars that cover a price in millionths of one, and no fewer do. */
  predicate Covers(micros: nat, price: nat) {
    1_000_000 * micros >= price && (micros > 0 ==> 1_000_000 * (micros - 1) < price)
  }

  /** What is reserved is the least that covers every byte as a token and every token that may be asked
      for; there is nothing to reserve only where that does not fit 64 bits. */
  lemma ReservationCovers(terms: Terms, bytes: nat, maxTokens: Option<nat>)
    ensures var most := bytes * terms.inputPrice
                        + terms.outputPrice * (match maxTokens case Some(n) => n case None => terms.outputBound);
            match Reservation(terms, bytes, maxTokens)
            case Some(micros) => most <= 0xFFFF_FFFF_FFFF_FFFF && Covers(micros, most)
            case None => most > 0xFFFF_FFFF_FFFF_FFFF
  {
  }

  /** What is charged: the provider's own figure as it is; else the least that covers the tokens it
      counted; and the whole reservation where it said neither, but nothing for a request it turned down
      without a word of usage. */
  lemma ChargedExactly(terms: Terms, usage: Usage, refused: bool, reserved: nat)
    ensures var charged := Settlement(terms, usage, refused, reserved);
            match usage
            case Silent => charged == if refused then 0 else reserved
            case Figure(None) => charged == reserved
            case Figure(Some(micros)) => charged == if micros <= U64_MAX then micros else U64_MAX
            case Tokens(None, _) => charged == reserved
            case Tokens(Some(prompt), None) =>
              var price := prompt * terms.inputPrice;
              Covers(charged, if price <= U64_MAX then price else U64_MAX)
            case Tokens(Some(prompt), Some(completion)) =>
              var price := prompt * terms.inputPrice + completion * terms.outputPrice;
              Covers(charged, if price <= U64_MAX then price else U64_MAX)
  {
    match usage
    case Tokens(Some(prompt), None) =>
      assert 0 * terms.outputPrice == 0;
    case _ =>
  }

  lemma TimesGrows(a: nat, b: nat, price: nat)
    requires a <= b
    ensures a * price <= b * price
  {
  }

  /** A request is never charged more than was reserved for it, so long as the provider gives no
      figure of its own, counts no more prompt tokens than the request had bytes, and no more
      completion tokens than it was allowed. */
  lemma ChargedWithinReservation(terms: Terms, bytes: nat, maxTokens: Option<nat>, usage: Usage, refused: bool)
    requires Reservation(terms, bytes, maxTokens).Some?
    requires usage.Figure? ==> usage.micros.None?
    requires usage.Tokens? && usage.prompt.Some? ==>
               && usage.prompt.value <= bytes
               && Or0(usage.completion) <= (if maxTokens.Some? then maxTokens.value else terms.outputBound)
    ensures var reserved := Reservation(terms, bytes, maxTokens).value;
            Settlement(terms, usage, refused, reserved) <= reserved
  {
    if usage.Tokens? && usage.prompt.Some? {
      var output := if maxTokens.Some? then maxTokens.value else terms.outputBound;
      TimesGrows(usage.prompt.value, bytes, terms.inputPrice);
      TimesGrows(Or0(usage.completion), output, terms.outputPrice);
    }
  }

  // ---- The cap, over whole runs -----------------------------------------------------------------------

  /** The log, what is in flight, and by how much settlements have gone over what was reserved. */
  datatype State = State(rows: seq<Row>, flying: map<Id, nat>, over: nat)

  datatype Step =
    | Reserve(id: Id, micros: nat)
    | Settle(id: Id, micros: nat)
    | DieInFlight(id: Id)

  ghost predicate Mentions(rows: seq<Row>, id: Id) {
    exists row :: row in rows && Of(row, id)
  }

  /** A reservation is read, decided and written under the lock; ids come from the second the proxy
      started, its process and a count, and are never used twice. */
  ghost predicate Enabled(s: State, terms: Terms, step: Step) {
    match step
    case Reserve(id, micros) =>
      !Mentions(s.rows, id) && id !in s.flying && !Overflows(s.rows) && Committed(s.rows) + micros <= terms.cap
    case Settle(id, micros) => id in s.flying
    case DieInFlight(id) => id in s.flying
  }

  function After(s: State, step: Step): State {
    match step
    case Reserve(id, micros) => State(s.rows + [Reserved(id, micros)], s.flying[id := micros], s.over)
    case Settle(id, micros) =>
      var reserved := if id in s.flying then s.flying[id] else 0;
      State(s.rows + [Settled(id, micros)], s.flying - {id}, s.over + (if micros > reserved then micros - reserved else 0))
    case DieInFlight(id) => s.(flying := s.flying - {id})
  }

  predicate Reserving(s: State) {
    forall id :: id in s.flying ==> OpenOf(s.rows, id) == Some(s.flying[id])
  }

  /** `held` is the most the cap or the log it was handed allows. */
  predicate Inv(s: State, held: nat) {
    Reserving(s) && Committed(s.rows) <= held + s.over
  }

  lemma {:induction false} Unmentioned(rows: seq<Row>, id: Id)
    requires !Mentions(rows, id)
    ensures OpenOf(rows, id).None?
  {
    if rows != [] {
      var front := rows[..|rows| - 1];
      assert rows == front + [rows[|rows| - 1]];
      assert rows[|rows| - 1] in rows;
      assert forall row :: row in front ==> row in rows;
      Unmentioned(front, id);
    }
  }

  lemma KeepsReserving(s: State, terms: Terms, step: Step)
    requires Reserving(s) && Enabled(s, terms, step)
    ensures Reserving(After(s, step))
  {
    if !step.DieInFlight? {
      assert After(s, step).rows[..|s.rows|] == s.rows;
    }
  }

  lemma KeepsInv(s: State, terms: Terms, step: Step, held: nat)
    requires Inv(s, held) && Enabled(s, terms, step) && terms.cap <= held
    ensures Inv(After(s, step), held)
  {
    KeepsReserving(s, terms, step);
    match step
    case Reserve(id, micros) =>
      Unmentioned(s.rows, id);
      ReservesAppend(s.rows, Reserved(id, micros));
      PaymentsAppend(s.rows, Reserved(id, micros));
    case Settle(id, micros) =>
      ReservesAppend(s.rows, Settled(id, micros));
      PaymentsAppend(s.rows, Settled(id, micros));
    case _ =>
  }

  ghost predicate Runs(s: State, terms: Terms, steps: seq<Step>, last: State)
    decreases |steps|
  {
    if steps == [] then
      last == s
    else
      Enabled(s, terms, steps[0]) && Runs(After(s, steps[0]), terms, steps[1..], last)
  }

  lemma {:induction false} RunKeepsInv(s: State, terms: Terms, steps: seq<Step>, last: State, held: nat)
    requires Inv(s, held) && Runs(s, terms, steps, last) && terms.cap <= held
    ensures Inv(last, held)
    decreases |steps|
  {
    hide After, Enabled, Inv;
    if steps != [] {
      KeepsInv(s, terms, steps[0], held);
      RunKeepsInv(After(s, steps[0]), terms, steps[1..], last, held);
    }
  }

  /** Over any interleaving of requests that reserve, settle or die in flight, on a ledger that
      outlives runs: what is committed never passes the cap by more than settlements have gone over
      their own reservations, and where none has, never passes it at all. */
  lemma CapHolds(rows: seq<Row>, terms: Terms, steps: seq<Step>, last: State)
    requires Committed(rows) <= terms.cap && Runs(State(rows, map[], 0), terms, steps, last)
    ensures Committed(last.rows) <= terms.cap + last.over
    ensures forall id :: id in last.flying ==> OpenOf(last.rows, id) == Some(last.flying[id])
  {
    hide Committed, Runs, OpenOf;
    RunKeepsInv(State(rows, map[], 0), terms, steps, last, terms.cap);
  }

  // ---- Exactly when it is passed ------------------------------------------------------------------------

  /** A settlement for more than its own reservation and everything still free under the cap. */
  predicate Overshoots(s: State, terms: Terms, step: Step) {
    && step.Settle? && step.id in s.flying
    && step.micros > s.flying[step.id] + (terms.cap - Committed(s.rows))
  }

  /** What a settlement does to the total: its own reservation goes, what it came to stands. */
  lemma SettleMoves(s: State, id: Id, micros: nat)
    requires Reserving(s) && id in s.flying
    ensures Committed(After(s, Settle(id, micros)).rows) == Committed(s.rows) - s.flying[id] + micros
  {
    ReservesAppend(s.rows, Settled(id, micros));
    PaymentsAppend(s.rows, Settled(id, micros));
  }

  lemma ReserveMoves(s: State, terms: Terms, id: Id, micros: nat)
    requires Enabled(s, terms, Reserve(id, micros))
    ensures Committed(After(s, Reserve(id, micros)).rows) == Committed(s.rows) + micros <= terms.cap
  {
    Unmentioned(s.rows, id);
    ReservesAppend(s.rows, Reserved(id, micros));
    PaymentsAppend(s.rows, Reserved(id, micros));
  }

  /** A step from within the cap stays within it if and only if it is no such settlement. */
  lemma StepPassesExactly(s: State, terms: Terms, step: Step)
    requires Reserving(s) && Committed(s.rows) <= terms.cap && Enabled(s, terms, step)
    ensures Committed(After(s, step).rows) <= terms.cap <==> !Overshoots(s, terms, step)
  {
    hide Committed;
    match step
    case Reserve(id, micros) => ReserveMoves(s, terms, id, micros);
    case Settle(id, micros) => SettleMoves(s, id, micros);
    case DieInFlight(id) =>
  }

  ghost predicate AlwaysWithin(s: State, terms: Terms, steps: seq<Step>)
    decreases |steps|
  {
    && Committed(s.rows) <= terms.cap
    && (steps != [] && Enabled(s, terms, steps[0]) ==> AlwaysWithin(After(s, steps[0]), terms, steps[1..]))
  }

  ghost predicate NeverOvershoots(s: State, terms: Terms, steps: seq<Step>)
    decreases |steps|
  {
    steps != [] && Enabled(s, terms, steps[0]) ==>
      && !Overshoots(s, terms, steps[0])
      && NeverOvershoots(After(s, steps[0]), terms, steps[1..])
  }

  /** Over whole runs: what is committed is within the cap at every point if and only if no settlement
      on the way came to more than its reservation and all that was free at that moment. */
  lemma {:induction false} CapHoldsExactly(s: State, terms: Terms, steps: seq<Step>, last: State)
    requires Reserving(s) && Committed(s.rows) <= terms.cap && Runs(s, terms, steps, last)
    ensures AlwaysWithin(s, terms, steps) <==> NeverOvershoots(s, terms, steps)
    decreases |steps|
  {
    hide Committed, After, Enabled, Overshoots;
    if steps != [] {
      StepPassesExactly(s, terms, steps[0]);
      KeepsReserving(s, terms, steps[0]);
      if !Overshoots(s, terms, steps[0]) {
        CapHoldsExactly(After(s, steps[0]), terms, steps[1..], last);
      }
    }
  }

  /** And it can be passed by any excess there is: a figure of the provider's own is charged whatever
      was reserved. */
  lemma CapCanBePassed(terms: Terms, excess: nat) returns (steps: seq<Step>, last: State)
    ensures Runs(State([], map[], 0), terms, steps, last)
    ensures last.over == excess && Committed(last.rows) == terms.cap + last.over
  {
    var s := State([], map[], 0);
    var reserve, settle := Reserve("1", terms.cap), Settle("1", terms.cap + excess);
    var mid := After(s, reserve);
    last := After(mid, settle);
    steps := [reserve, settle];
    var rows: seq<Row> := [];
    assert forall n :: 0 <= n <= |rows| ==> Paid(rows, n) == 0;
    ReservesAppend(mid.rows, Settled("1", terms.cap + excess));
    PaymentsAppend(mid.rows, Settled("1", terms.cap + excess));
    assert mid.rows == [Reserved("1", terms.cap)];
    assert Runs(last, terms, [], last);
    assert steps[1..] == [settle] && [settle][1..] == [];
    assert Runs(mid, terms, [settle], last);
  }

  // ---- When a request is let through, and what one leaves that dies -------------------------------------

  /** A request under a new id is let through exactly when what it reserves fits under the cap beside all
      that is committed. */
  lemma ReservesExactly(s: State, terms: Terms, id: Id, micros: nat)
    requires !Mentions(s.rows, id) && id !in s.flying && !Overflows(s.rows)
    ensures Enabled(s, terms, Reserve(id, micros)) <==> micros <= terms.cap - Committed(s.rows)
  {
  }

  /** One that dies in flight stays counted at its reservation for good: nothing that is reserved or settled
      afterwards is under its id. */
  lemma DeadStaysReserved(s: State, terms: Terms, id: Id, steps: seq<Step>, last: State)
    requires Reserving(s) && Enabled(s, terms, DieInFlight(id)) && Runs(After(s, DieInFlight(id)), terms, steps, last)
    ensures Committed(After(s, DieInFlight(id)).rows) == Committed(s.rows)
    ensures OpenOf(last.rows, id) == Some(s.flying[id]) && id !in last.flying
  {
    OpenIsMentioned(s.rows, id);
    StaysReserved(After(s, DieInFlight(id)), terms, id, s.flying[id], steps, last);
  }

  lemma OpenIsMentioned(rows: seq<Row>, id: Id)
    requires OpenOf(rows, id).Some?
    ensures Mentions(rows, id)
  {
    if !Mentions(rows, id) {
      Unmentioned(rows, id);
    }
  }

  lemma {:induction false} StaysReserved(s: State, terms: Terms, id: Id, micros: nat, steps: seq<Step>, last: State)
    requires OpenOf(s.rows, id) == Some(micros) && id !in s.flying && Runs(s, terms, steps, last)
    ensures OpenOf(last.rows, id) == Some(micros) && id !in last.flying
    decreases |steps|
  {
    hide OpenOf, Mentions;
    if steps != [] {
      OpenIsMentioned(s.rows, id);
      OthersLeaveOpen(s, terms, id, steps[0]);
      StaysReserved(After(s, steps[0]), terms, id, micros, steps[1..], last);
    }
  }

  lemma OthersLeaveOpen(s: State, terms: Terms, id: Id, step: Step)
    requires OpenOf(s.rows, id).Some? && Mentions(s.rows, id) && id !in s.flying && Enabled(s, terms, step)
    ensures OpenOf(After(s, step).rows, id) == OpenOf(s.rows, id) && id !in After(s, step).flying
  {
    if !step.DieInFlight? {
      assert After(s, step).rows[..|s.rows|] == s.rows;
    }
  }
}
