/** The few operations on text the program reads its notes back with. */
module Texts {
  import opened Options

  /** White space as Unicode has it. */
  predicate IsSpace(c: char) {
    var n := c as int;
    || 9 <= n <= 13 || n == 32 || n == 0x85 || n == 0xA0 || n == 0x1680 || 0x2000 <= n <= 0x200A
    || n == 0x2028 || n == 0x2029 || n == 0x202F || n == 0x205F || n == 0x3000
  }

  function TrimStart(s: string): string {
    if s != "" && IsSpace(s[0]) then TrimStart(s[1..]) else s
  }

  function TrimEnd(s: string): string {
    if s != "" && IsSpace(s[|s| - 1]) then TrimEnd(s[..|s| - 1]) else s
  }

  /** `trim` */
  function Trim(s: string): string {
    TrimEnd(TrimStart(s))
  }

  /** `split_once`: what is before the first `c`, and after it. */
  function SplitOnce(s: string, c: char): Option<(string, string)> {
    if s == "" then None
    else if s[0] == c then Some(("", s[1..]))
    else
      match SplitOnce(s[1..], c)
      case None => None
      case Some(parts) => Some(([s[0]] + parts.0, parts.1))
  }

  /** `lines`: what each newline ends, and what is left after the last unless that is nothing. */
  function Lines(s: string): seq<string>
    decreases |s|
  {
    if s == "" then []
    else
      match SplitOnce(s, '\n')
      case None => [s]
      case Some(parts) => if |parts.1| < |s| then [parts.0] + Lines(parts.1) else []
  }

  lemma {:induction false} SplitsOnce(a: string, b: string, c: char)
    requires c !in a
    ensures SplitOnce(a + [c] + b, c) == Some((a, b))
  {
    var s := a + [c] + b;
    if a == "" {
      assert s[1..] == b;
    } else {
      assert s[1..] == a[1..] + [c] + b;
      SplitsOnce(a[1..], b, c);
      assert [s[0]] + a[1..] == a;
    }
  }

  lemma FirstLine(a: string, b: string)
    requires '\n' !in a
    ensures Lines(a + "\n" + b) == [a] + Lines(b)
  {
    SplitsOnce(a, b, '\n');
  }

  lemma NothingToTrim(s: string)
    requires s != "" && !IsSpace(s[0]) && !IsSpace(s[|s| - 1])
    ensures Trim(s) == s && Trim(s + "\n") == s
  {
    assert (s + "\n")[..|s|] == s;
    assert TrimEnd(s) == s;
  }

  /** An id is two words and a dash; a run's name has a dash more. */
  function Dashes(s: string): nat {
    if s == "" then 0 else Dashes(s[1..]) + (if s[0] == '-' then 1 else 0)
  }

  lemma {:induction false} NoDashes(s: string)
    requires forall i :: 0 <= i < |s| ==> s[i] != '-'
    ensures Dashes(s) == 0
  {
    if s != "" {
      NoDashes(s[1..]);
    }
  }

  predicate Blank(s: string) {
    forall i :: 0 <= i < |s| ==> IsSpace(s[i])
  }

  lemma {:induction false} TrimStartExactly(s: string) returns (before: string)
    ensures s == before + TrimStart(s) && Blank(before)
    ensures TrimStart(s) != "" ==> !IsSpace(TrimStart(s)[0])
  {
    hide IsSpace;
    before := "";
    if s != "" && IsSpace(s[0]) {
      var rest := TrimStartExactly(s[1..]);
      before := [s[0]] + rest;
    }
  }

  lemma {:induction false} TrimEndExactly(s: string) returns (after: string)
    ensures s == TrimEnd(s) + after && Blank(after)
    ensures TrimEnd(s) != "" ==> !IsSpace(TrimEnd(s)[|TrimEnd(s)| - 1])
  {
    hide IsSpace;
    after := "";
    if s != "" && IsSpace(s[|s| - 1]) {
      var rest := TrimEndExactly(s[..|s| - 1]);
      after := rest + [s[|s| - 1]];
    }
  }

  /** A text is its trimmed middle between two runs of white space, and the middle neither starts nor
      ends with any. */
  lemma TrimExactly(s: string) returns (before: string, after: string)
    ensures s == before + Trim(s) + after && Blank(before) && Blank(after)
    ensures Trim(s) != "" ==> !IsSpace(Trim(s)[0]) && !IsSpace(Trim(s)[|Trim(s)| - 1])
  {
    hide IsSpace;
    before := TrimStartExactly(s);
    after := TrimEndExactly(TrimStart(s));
    if Trim(s) != "" {
      assert TrimStart(s)[0] == Trim(s)[0];
    }
  }
}
