/** The spending cap: one ledger a run, a file holding one number, which every ask of the run
    replaces its own share of under a lock, and which every new ask is held against. */
module Spending {
  import opened Options
  import opened Decimal
  import opened Texts

  // ---- The file ----------------------------------------------------------------------------------

  datatype Fault = TooLong | NotANumber | Unavailable | NoLongerContains

  /** What a ledger's file says: nothing written is nothing spent. */
  function Total(file: Option<string>): Result<nat, Fault> {
    match file
    case None => Ok(0)
    case Some(text) =>
      if |text| > 64 then Err(TooLong)
      else match ParseU64(Trim(text)) case Some(n) => Ok(n) case None => Err(NotANumber)
  }

  function Line(total: nat): string {
    Written(total) + "\n"
  }

  /** A total written is the total read. */
  lemma LineReadsBack(total: nat)
    ensures total <= U64_MAX ==> Total(Some(Line(total))) == Ok(total)
  {
    if total <= U64_MAX {
      var w := Written(total);
      assert IsDigit(w[0]) && IsDigit(w[|w| - 1]);
      NothingToTrim(w);
      ValueOfWritten(total);
      FitsTheLimit(total);
    }
  }

  lemma FitsTheLimit(total: nat)
    requires total <= U64_MAX
    ensures |Written(total)| <= 20
  {
    assert Pow10(20) == 100000000000000000000 by {
      assert Pow10(5) == 100000;
      assert Pow10(10) == 10000000000;
      assert Pow10(15) == 1000000000000000;
    }
    WrittenLength(total, 20);
  }

  /** Decimal digits, after at most one plus sign, of a number of 64 bits. */
  ghost predicate Says(s: string, n: nat) {
    && n <= U64_MAX
    && exists digits ::
         digits != "" && AllDigits(digits) && Value(digits) == n && (s == digits || s == "+" + digits)
  }

  /** What a file of up to 64 characters says, between white space, is its total; anything else is no
      total at all. */
  lemma TotalExactly(text: string, n: nat)
    ensures Total(Some(text)) == Ok(n) <==> |text| <= 64 && Says(Trim(text), n)
    ensures Total(None) == Ok(0)
  {
    hide Value, Trim;
    ParsesExactly(Trim(text), n);
  }

  lemma ParsesExactly(s: string, n: nat)
    ensures ParseU64(s) == Some(n) <==> Says(s, n)
  {
    hide Value;
    if ParseU64(s) == Some(n) {
      var t := if |s| > 0 && s[0] == '+' then s[1..] else s;
      assert t != "" && AllDigits(t) && Value(t) == n && (s == t || s == "+" + t);
    }
    if Says(s, n) {
      var digits :| digits != "" && AllDigits(digits) && Value(digits) == n && (s == digits || s == "+" + digits);
      assert digits[0] != '+';
      assert s == "+" + digits ==> s[1..] == digits;
    }
  }

  /** The arithmetic of a replacement, `u64::MAX` staying what it is. */
  function Replaced(current: nat, previous: nat, now: nat): Result<nat, Fault> {
    if current == U64_MAX then Ok(U64_MAX)
    else if current < previous then Err(NoLongerContains)
    else Ok(Min(current - previous + now, U64_MAX))
  }

  /** What the run has spent, as an ask about to be sent reads it. */
  function Spent(file: Option<string>): nat {
    match Total(file) case Ok(n) => n case Err(_) => U64_MAX
  }

  predicate Refused(spent: nat, cap: Option<nat>) {
    cap.Some? && spent >= cap.value
  }

  // ---- The ledger and the meter -----------------------------------------------------------------------

  class Ledger {
    var file: Option<string>

    constructor ()
      ensures file == None
    {
      file := None;
    }

    /** One replacement under the lock; `held` and `kept` say whether the lock was had and the new
        file renamed into place. Nothing but the whole new total is ever seen in the file. */
    method Replace(previous: nat, now: nat, held: bool, kept: bool) returns (r: Result<nat, Fault>)
      requires previous <= U64_MAX && now <= U64_MAX
      modifies this
      ensures r.Ok? ==> held && kept && old(Total(file)).Ok?
                        && Replaced(old(Total(file)).value, previous, now) == r && Total(file) == r
      ensures r.Err? ==> file == old(file)
      ensures held && kept && old(Total(file)).Ok? && Replaced(old(Total(file)).value, previous, now).Ok? ==> r.Ok?
    {
      if !held {
        return Err(Unavailable);
      }
      var current := Total(file);
      if current.Err? {
        return current;
      }
      var total := Replaced(current.value, previous, now);
      if total.Err? {
        return total;
      }
      if !kept {
        return Err(Unavailable);
      }
      LineReadsBack(total.value);
      file := Some(Line(total.value));
      return total;
    }
  }

  datatype Settlement = SettlementReplaced | SettlementUnchanged | SettlementUntracked | SettlementFailed

  class Meter {
    const ledger: Ledger?
    var charged: nat

    constructor (ledger: Ledger?)
      ensures this.ledger == ledger && charged == 0
    {
      this.ledger := ledger;
      charged := 0;
    }

    /** `now` is what the usage heard so far costs. The file and `charged` move together or not at
        all, and hearing the same again moves neither. */
    method HeardObserved(now: nat, held: bool, kept: bool) returns (said: Settlement)
      requires charged <= U64_MAX && now <= U64_MAX
      modifies this, ledger
      ensures said == SettlementFailed ==> charged == old(charged) && ledger != null && ledger.file == old(ledger.file)
      ensures said != SettlementFailed ==> charged == now
      ensures said == SettlementUntracked <==> ledger == null
      ensures said == SettlementUnchanged <==> ledger != null && now == old(charged)
      ensures said == SettlementUnchanged ==> ledger.file == old(ledger.file)
      ensures said == SettlementReplaced ==>
                && old(Total(ledger.file)).Ok?
                && Total(ledger.file) == Replaced(old(Total(ledger.file)).value, old(charged), now)
      ensures ledger != null && now != old(charged) ==>
                (said == SettlementReplaced <==>
                 && held && kept && old(Total(ledger.file)).Ok?
                 && (old(Total(ledger.file)).value == U64_MAX || old(charged) <= old(Total(ledger.file)).value))
      ensures said == SettlementReplaced ==>
                var total := old(Total(ledger.file)).value;
                Total(ledger.file) ==
                  Ok(if total == U64_MAX || total - old(charged) + now > U64_MAX then U64_MAX
                     else total - old(charged) + now)
    {
      if now == charged {
        return if ledger != null then SettlementUnchanged else SettlementUntracked;
      }
      if ledger != null {
        var r := ledger.Replace(charged, now, held, kept);
        if r.Err? {
          return SettlementFailed;
        }
      }
      charged := now;
      return if ledger != null then SettlementReplaced else SettlementUntracked;
    }
  }

  // ---- How an amount is shown ---------------------------------------------------------------------------

  function TrimZeros(s: string): string {
    if s != "" && s[|s| - 1] == '0' then TrimZeros(s[..|s| - 1]) else s
  }

  function Shown(fraction: string): string
    requires |fraction| >= 2
  {
    var kept := TrimZeros(fraction);
    if |kept| > 2 then kept else fraction[..2]
  }

  function Dollars(micros: nat): string {
    "$" + Written(micros / 1_000_000) + "." + Shown(Padded(micros % 1_000_000, 6))
  }

  /** Reads an amount back, in millionths. */
  function ReadDollars(s: string): Option<nat> {
    if s == "" || s[0] != '$' then None
    else
      match SplitOnce(s[1..], '.')
      case None => None
      case Some((whole, part)) =>
        if AllDigits(whole) && AllDigits(part) && |part| <= 6 then
          Some(Value(whole) * 1_000_000 + Value(part + Zeros(6 - |part|)))
        else None
  }

  lemma {:induction false} TrimmedZeros(s: string)
    ensures TrimZeros(s) <= s && s == TrimZeros(s) + Zeros(|s| - |TrimZeros(s)|)
    ensures TrimZeros(s) != "" ==> TrimZeros(s)[|TrimZeros(s)| - 1] != '0'
  {
    if s != "" && s[|s| - 1] == '0' {
      var t := s[..|s| - 1];
      TrimmedZeros(t);
      assert s == t + "0";
      assert Zeros(|s| - |TrimZeros(s)|) == Zeros(|t| - |TrimZeros(t)|) + "0";
    }
  }

  /** What is shown is the fraction without some zeros, but never without its first two digits. */
  lemma ShownKeepsTheValue(fraction: string)
    requires |fraction| == 6 && AllDigits(fraction)
    ensures var shown := Shown(fraction);
            && 2 <= |shown| <= 6 && shown <= fraction && shown + Zeros(6 - |shown|) == fraction
            && (|shown| > 2 ==> shown[|shown| - 1] != '0')
  {
    TrimmedZeros(fraction);
  }

  lemma FractionReadsBack(rest: nat)
    requires rest < 1_000_000
    ensures var shown := Shown(Padded(rest, 6));
            && |shown| <= 6 && AllDigits(shown) && AllDigits(shown + Zeros(6 - |shown|))
            && Value(shown + Zeros(6 - |shown|)) == rest
  {
    var fraction := Padded(rest, 6);
    SixDigits(rest);
    ShownKeepsTheValue(fraction);
    ValueOfPadded(rest, 6);
  }

  lemma SixDigits(rest: nat)
    requires rest < 1_000_000
    ensures |Padded(rest, 6)| == 6
  {
    assert Pow10(6) == 1_000_000;
    PaddedLength(rest, 6);
  }

  lemma ReadsParts(said: string, whole: string, shown: string)
    requires AllDigits(whole) && AllDigits(shown) && |shown| <= 6
    requires said != "" && said[0] == '$' && said[1..] == whole + "." + shown
    ensures ReadDollars(said) == Some(Value(whole) * 1_000_000 + Value(shown + Zeros(6 - |shown|)))
  {
    hide Value, Zeros, SplitOnce;
    assert '.' !in whole;
    SplitsOnce(whole, shown, '.');
  }

  /** Shortening the fraction loses nothing: an amount shown reads back to the millionth, so no two
      amounts are shown alike. */
  lemma DollarsReadBack(micros: nat)
    ensures ReadDollars(Dollars(micros)) == Some(micros)
  {
    hide Shown, Padded, Written, ReadDollars, Value, Zeros;
    var whole, rest := micros / 1_000_000, micros % 1_000_000;
    FractionReadsBack(rest);
    ValueOfWritten(whole);
    var shown := Shown(Padded(rest, 6));
    assert Dollars(micros)[1..] == Written(whole) + "." + shown;
    ReadsParts(Dollars(micros), Written(whole), shown);
  }
}
