/** The `.adopting` note itself: who was asked and the nonce the answer has to quote, two lines of text
    that only the asker reads. `Handover` takes the note as what this file shows it to be, one asking
    at a time that only the exact answer takes, once. */
module Pending {
  import opened Options
  import opened Texts

  datatype Asked = Asked(to: string, nonce: string)

  function Line(lines: seq<string>, n: nat): Option<string> {
    if n < |lines| && Trim(lines[n]) != "" then Some(Trim(lines[n])) else None
  }

  /** `parse` */
  function Parse(text: string): Option<Asked> {
    match (Line(Lines(text), 0), Line(Lines(text), 1))
    case (Some(to), Some(nonce)) => Some(Asked(to, nonce))
    case _ => None
  }

  function NoteOf(asked: Asked): string {
    asked.to + "\n" + asked.nonce + "\n"
  }

  function Read(note: Option<string>): Option<Asked> {
    match note case None => None case Some(text) => Parse(text)
  }

  /** One whole trimmed line. */
  predicate IsWord(s: string) {
    s != "" && '\n' !in s && Trim(s) == s
  }

  class Note {
    var text: Option<string>

    constructor ()
      ensures text == None
    {
      text := None;
    }

    /** Any earlier asking is gone: there is one at a time. */
    method Ask(to: string, nonce: string)
      modifies this
      ensures IsWord(to) && IsWord(nonce) ==> Read(text) == Some(Asked(to, nonce))
      ensures Read(text) == Some(Asked(to, nonce)) ==> IsWord(to) && IsWord(nonce)
    {
      text := Some(NoteOf(Asked(to, nonce)));
      NoteReadsBack(Asked(to, nonce));
    }

    /** Taken by the one answer that matches both lines, and by nothing after it; any other answer
        leaves it as it was. */
    method Consume(to: string, nonce: string) returns (took: bool)
      modifies this
      ensures took <==> old(Read(text)) == Some(Asked(to, nonce))
      ensures text == if took then None else old(text)
      ensures took ==> forall t, n :: Read(text) != Some(Asked(t, n))
    {
      took := Read(text) == Some(Asked(to, nonce));
      if took {
        text := None;
      }
    }

    /** Only an asking of this very session is withdrawn. */
    method Withdraw(to: string)
      modifies this
      ensures var held := old(Read(text)); text == if held.Some? && held.value.to == to then None else old(text)
      ensures Read(text).Some? ==> Read(text).value.to != to
    {
      var held := Read(text);
      if held.Some? && held.value.to == to {
        text := None;
      }
    }
  }

  lemma {:induction false} TrimmedIsShorter(s: string)
    ensures |TrimStart(s)| <= |s|
  {
    if s != "" && IsSpace(s[0]) {
      TrimmedIsShorter(s[1..]);
    }
  }

  lemma {:induction false} TrimmedEndIsShorter(s: string)
    ensures |TrimEnd(s)| <= |s|
  {
    if s != "" && IsSpace(s[|s| - 1]) {
      TrimmedEndIsShorter(s[..|s| - 1]);
    }
  }

  lemma TrimIsShorter(s: string)
    ensures |Trim(s)| <= |s|
  {
    TrimmedIsShorter(s);
    TrimmedEndIsShorter(TrimStart(s));
  }

  /** A text that holds a newline comes apart before its end. */
  lemma {:induction false} SplitsInside(s: string)
    requires '\n' in s
    ensures SplitOnce(s, '\n').Some?
    ensures var parts := SplitOnce(s, '\n').value;
            s == parts.0 + "\n" + parts.1 && '\n' !in parts.0 && |parts.0| < |s|
  {
    if s[0] != '\n' {
      SplitsInside(s[1..]);
    }
  }

  lemma TwoLines(to: string, nonce: string)
    requires '\n' !in to && '\n' !in nonce
    ensures Lines(to + "\n" + nonce + "\n") == [to, nonce]
  {
    FirstLine(nonce, "");
    FirstLine(to, nonce + "\n");
    assert to + "\n" + nonce + "\n" == to + "\n" + (nonce + "\n");
    assert nonce + "\n" + "" == nonce + "\n";
  }

  /** What is asked is what is read exactly when both are whole trimmed lines, as names and nonces are. */
  lemma NoteReadsBack(asked: Asked)
    ensures Parse(NoteOf(asked)) == Some(asked) <==> IsWord(asked.to) && IsWord(asked.nonce)
  {
    hide Trim, Lines, SplitOnce;
    if '\n' in asked.to {
      BrokenLine(asked.to, "\n" + asked.nonce + "\n");
      assert NoteOf(asked) == asked.to + ("\n" + asked.nonce + "\n");
    } else if '\n' in asked.nonce {
      BrokenLine(asked.nonce, "\n");
      FirstLine(asked.to, asked.nonce + "\n");
      assert NoteOf(asked) == asked.to + "\n" + (asked.nonce + "\n");
    } else {
      TwoLines(asked.to, asked.nonce);
    }
  }

  lemma BrokenLine(s: string, rest: string)
    requires '\n' in s
    ensures Lines(s + rest) != [] && Trim(Lines(s + rest)[0]) != s
  {
    hide Trim;
    SplitsInside(s);
    var parts := SplitOnce(s, '\n').value;
    assert s + rest == parts.0 + "\n" + (parts.1 + rest);
    FirstLine(parts.0, parts.1 + rest);
    TrimIsShorter(parts.0);
  }
}
