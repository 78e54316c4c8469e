/** What a session's inbox keeps of everything it was ever sent, and how it is read out in pages. */
module Inbox {
  import opened Options
  import opened Decimal
  import Framing

  const AT_MOST := 50

  datatype Sort = Note | Question | Answer | Attention | Report | Claim | Release | Handoff | Trouble

  datatype Message = Message(id: string, sender: string, sort: Sort, text: string, about: Option<string>,
                             hops: nat, at: nat)

  predicate Interrupts(m: Message) {
    m.sort == Attention || m.sort == Trouble
  }

  // ---- What ought to be kept ------------------------------------------------------------------------------

  /** How many of these interrupt, or do not. */
  function Count(messages: seq<Message>, interrupting: bool): nat {
    if messages == [] then 0
    else (if Interrupts(messages[0]) == interrupting then 1 else 0) + Count(messages[1..], interrupting)
  }

  /** Fewer than its kind's share came after it. */
  predicate Stays(m: Message, later: seq<Message>, cries: nat, others: nat) {
    Count(later, Interrupts(m)) < if Interrupts(m) then cries else others
  }

  /** In order, the newest `cries` that interrupt and the newest `others` that do not. */
  function Newest(history: seq<Message>, cries: nat, others: nat): seq<Message> {
    if history == [] then []
    else IfStays(history[0], history[1..], cries, others) + Newest(history[1..], cries, others)
  }

  function IfStays(m: Message, later: seq<Message>, cries: nat, others: nat): seq<Message> {
    if Stays(m, later, cries, others) then [m] else []
  }

  /** The whole history's share: as many cries for help as there are, up to the bound, and the rest of
      the places for what is not one. */
  function Share(history: seq<Message>): seq<Message> {
    var cries := Min(AT_MOST, Count(history, true));
    Newest(history, cries, AT_MOST - cries)
  }

  // ---- What is ------------------------------------------------------------------------------------------

  /** Where the first message that is not a cry for help is, if there is one. */
  function FirstOther(messages: seq<Message>): (at: Option<nat>)
    ensures at.Some? ==> at.value < |messages|
  {
    if messages == [] then None
    else if !Interrupts(messages[0]) then Some(0)
    else match FirstOther(messages[1..]) case None => None case Some(at) => Some(at + 1)
  }

  function Without(messages: seq<Message>, at: nat): seq<Message>
    requires at < |messages|
  {
    messages[..at] + messages[at + 1..]
  }

  function Evicted(messages: seq<Message>): seq<Message>
    requires messages != []
  {
    Without(messages, if FirstOther(messages).Some? then FirstOther(messages).value else 0)
  }

  function Kept(held: seq<Message>, m: Message): (r: seq<Message>)
    requires |held| <= AT_MOST
    ensures |r| <= AT_MOST
  {
    if |held| < AT_MOST then held + [m] else Evicted(held + [m])
  }

  /** What has been read is out: by id, or the oldest beyond those still unread. */
  function Consumed(held: seq<Message>, read: Option<seq<string>>, waiting: Option<nat>): seq<Message> {
    if read.Some? then Unread(held, read.value)
    else if waiting.Some? && |held| > waiting.value then held[|held| - waiting.value..]
    else held
  }

  function Unread(held: seq<Message>, read: seq<string>): seq<Message> {
    if held == [] then []
    else (if held[0].id in read then [] else [held[0]]) + Unread(held[1..], read)
  }

  /** Exactly those that were not read stay, in the order they were in. */
  lemma {:induction false} UnreadStay(held: seq<Message>, read: seq<string>)
    ensures forall m :: multiset(Unread(held, read))[m] == if m.id in read then 0 else multiset(held)[m]
  {
    if held != [] {
      UnreadStay(held[1..], read);
      assert held == [held[0]] + held[1..];
    }
  }

  lemma {:induction false} UnreadInOrder(a: seq<Message>, b: seq<Message>, read: seq<string>)
    ensures Unread(a + b, read) == Unread(a, read) + Unread(b, read)
  {
    if a == [] {
      assert a + b == b;
    } else {
      assert (a + b)[1..] == a[1..] + b;
      UnreadInOrder(a[1..], b, read);
    }
  }

  lemma UnreadFrom(held: seq<Message>, n: nat, read: seq<string>)
    requires n < |held|
    ensures Unread(held[n..], read)
         == (if held[n].id in read then [] else [held[n]]) + Unread(held[n + 1..], read)
  {
    assert held[n..][1..] == held[n + 1..];
  }

  lemma UnreadEnds(held: seq<Message>, n: nat, read: seq<string>)
    requires n == |held|
    ensures Unread(held[n..], read) == []
  {
  }

  class Box {
    var held: seq<Message>

    constructor ()
      ensures held == []
    {
      held := [];
    }

    /** `iter().position`. */
    method Position() returns (at: nat)
      requires held != []
      ensures at == if FirstOther(held).Some? then FirstOther(held).value else 0
    {
      at := 0;
      while at < |held|
        invariant at <= |held|
        invariant FirstOther(held) == match FirstOther(held[at..]) case None => None case Some(n) => Some(at + n)
      {
        if !Interrupts(held[at]) {
          return;
        }
        assert held[at..][1..] == held[at + 1..];
        at := at + 1;
      }
      return 0;
    }

    method Keep(m: Message)
      requires |held| <= AT_MOST
      modifies this
      ensures held == Kept(old(held), m) && |held| <= AT_MOST
    {
      held := held + [m];
      while |held| > AT_MOST
        invariant |held| > AT_MOST ==> held == old(held) + [m] && |held| == AT_MOST + 1
        invariant |held| <= AT_MOST ==> held == Kept(old(held), m)
      {
        var at := Position();
        held := held[..at] + held[at + 1..];
      }
    }

    method Consume(read: Option<seq<string>>, waiting: Option<nat>)
      modifies this
      ensures held == Consumed(old(held), read, waiting)
      ensures read.Some? ==> forall m :: multiset(held)[m] == if m.id in read.value then 0 else multiset(old(held))[m]
      ensures read.None? && waiting.Some? ==>
                |held| == Min(|old(held)|, waiting.value) && held == old(held)[|old(held)| - |held|..]
      ensures read.None? && waiting.None? ==> held == old(held)
    {
      hide Unread;
      if read.Some? {
        var out: seq<Message> := [];
        var n := 0;
        while n < |held|
          invariant 0 <= n <= |held| && held == old(held)
          invariant Unread(held[0..], read.value) == out + Unread(held[n..], read.value)
        {
          UnreadFrom(held, n, read.value);
          if held[n].id !in read.value {
            out := out + [held[n]];
          }
          n := n + 1;
        }
        UnreadEnds(held, n, read.value);
        assert held[0..] == held;
        UnreadStay(held, read.value);
        held := out;
      } else if waiting.Some? {
        var gone := if |held| > waiting.value then |held| - waiting.value else 0;
        held := held[gone..];
      }
    }
  }

  // ---- One is the other ------------------------------------------------------------------------------------

  lemma {:induction false} CountAppends(a: seq<Message>, m: Message, interrupting: bool)
    ensures Count(a + [m], interrupting) == Count(a, interrupting) + if Interrupts(m) == interrupting then 1 else 0
  {
    if a == [] {
      assert a + [m] == [m];
    } else {
      assert (a + [m])[1..] == a[1..] + [m];
      CountAppends(a[1..], m, interrupting);
    }
  }

  lemma StaysAppends(x: Message, later: seq<Message>, m: Message, cries: nat, others: nat)
    requires if Interrupts(m) then cries > 0 else others > 0
    ensures IfStays(x, later + [m], cries, others)
         == if Interrupts(m) then IfStays(x, later, cries - 1, others) else IfStays(x, later, cries, others - 1)
  {
    hide Count;
    CountAppends(later, m, Interrupts(x));
  }

  lemma NewestNext(x: Message, t: seq<Message>, cries: nat, others: nat)
    ensures Newest([x] + t, cries, others) == IfStays(x, t, cries, others) + Newest(t, cries, others)
  {
    assert ([x] + t)[1..] == t;
  }

  lemma NewestOne(m: Message, cries: nat, others: nat)
    ensures Newest([m], cries, others) == IfStays(m, [], cries, others)
    ensures Newest([], cries, others) == []
    ensures Stays(m, [], cries, others) <==> (if Interrupts(m) then cries > 0 else others > 0)
  {
    assert [m][1..] == [];
  }

  /** One more message takes one place of its own kind. */
  lemma {:induction false} NewestAppends(h: seq<Message>, m: Message, cries: nat, others: nat)
    requires if Interrupts(m) then cries > 0 else others > 0
    ensures Newest(h + [m], cries, others)
         == (if Interrupts(m) then Newest(h, cries - 1, others) else Newest(h, cries, others - 1)) + [m]
  {
    hide Newest, Count;
    var c, o := if Interrupts(m) then cries - 1 else cries, if Interrupts(m) then others else others - 1;
    if h == [] {
      assert h + [m] == [m];
      NewestOne(m, cries, others);
      NewestOne(m, c, o);
    } else {
      var x, t := h[0], h[1..];
      assert h == [x] + t && h + [m] == [x] + (t + [m]);
      NewestNext(x, t + [m], cries, others);
      NewestNext(x, t, c, o);
      NewestAppends(t, m, cries, others);
      StaysAppends(x, t, m, cries, others);
    }
  }

  /** With no place for its kind it is not there at all. */
  lemma {:induction false} NewestIgnores(h: seq<Message>, m: Message, cries: nat)
    requires !Interrupts(m)
    ensures Newest(h + [m], cries, 0) == Newest(h, cries, 0)
  {
    hide Newest, Count;
    if h == [] {
      assert h + [m] == [m];
      NewestOne(m, cries, 0);
    } else {
      var x, t := h[0], h[1..];
      assert h == [x] + t && h + [m] == [x] + (t + [m]);
      NewestNext(x, t + [m], cries, 0);
      NewestNext(x, t, cries, 0);
      NewestIgnores(t, m, cries);
      CountAppends(t, m, Interrupts(x));
    }
  }

  lemma {:induction false} NewestLength(h: seq<Message>, cries: nat, others: nat)
    ensures |Newest(h, cries, others)| == Min(cries, Count(h, true)) + Min(others, Count(h, false))
  {
    if h != [] {
      NewestLength(h[1..], cries, others);
    }
  }

  /** Places nobody needs make no difference. */
  lemma {:induction false} RoomToSpare(h: seq<Message>, cries: nat, others: nat)
    requires Count(h, false) <= others
    ensures Newest(h, cries, others + 1) == Newest(h, cries, others)
  {
    if h != [] {
      RoomToSpare(h[1..], cries, others);
    }
  }

  lemma WithoutLater(m: Message, rest: seq<Message>, at: nat)
    requires at < |rest|
    ensures Without([m] + rest, at + 1) == [m] + Without(rest, at)
  {
  }

  lemma EvictsPast(m: Message, rest: seq<Message>)
    requires Interrupts(m) && FirstOther(rest).Some?
    ensures Evicted([m] + rest) == [m] + Evicted(rest)
  {
    hide Without;
    assert ([m] + rest)[1..] == rest;
    WithoutLater(m, rest, FirstOther(rest).value);
  }

  /** Dropping the first message that is not a cry for help gives up one of those places. */
  lemma {:induction false} EvictsOldestOther(h: seq<Message>, cries: nat, others: nat)
    requires Count(h, false) > others
    ensures var kept := Newest(h, cries, others + 1);
            && FirstOther(kept).Some? && Evicted(kept) == Newest(h, cries, others)
  {
    var t := h[1..];
    if Interrupts(h[0]) {
      EvictsOldestOther(t, cries, others);
      if Stays(h[0], t, cries, others) {
        EvictsPast(h[0], Newest(t, cries, others + 1));
        assert ([h[0]] + Newest(t, cries, others + 1))[1..] == Newest(t, cries, others + 1);
      } else {
        assert [] + Newest(t, cries, others + 1) == Newest(t, cries, others + 1);
      }
    } else if Count(t, false) > others {
      EvictsOldestOther(t, cries, others);
      assert [] + Newest(t, cries, others + 1) == Newest(t, cries, others + 1);
    } else {
      RoomToSpare(t, cries, others);
      assert Evicted([h[0]] + Newest(t, cries, others + 1)) == Newest(t, cries, others + 1);
    }
  }

  /** Dropping the first of nothing but cries for help gives up one of theirs. */
  lemma {:induction false} EvictsOldestCry(h: seq<Message>, cries: nat)
    requires Count(h, true) > cries
    ensures var kept := Newest(h, cries + 1, 0);
            kept != [] && FirstOther(kept).None? && kept[1..] == Newest(h, cries, 0)
  {
    var t := h[1..];
    if Interrupts(h[0]) && Count(t, true) <= cries {
      OnlyCries(t, cries + 1);
      MoreCries(t, cries);
      assert Newest(h, cries + 1, 0) == [h[0]] + Newest(t, cries + 1, 0);
    } else {
      EvictsOldestCry(t, cries);
      assert [] + Newest(t, cries + 1, 0) == Newest(t, cries + 1, 0);
    }
  }

  lemma {:induction false} OnlyCries(h: seq<Message>, cries: nat)
    ensures FirstOther(Newest(h, cries, 0)).None?
  {
    if h != [] {
      OnlyCries(h[1..], cries);
      var rest := Newest(h[1..], cries, 0);
      assert ([h[0]] + rest)[1..] == rest && [] + rest == rest;
    }
  }

  lemma {:induction false} MoreCries(h: seq<Message>, cries: nat)
    requires Count(h, true) <= cries
    ensures Newest(h, cries + 1, 0) == Newest(h, cries, 0)
  {
    if h != [] {
      MoreCries(h[1..], cries);
    }
  }

  lemma {:induction false} FirstOtherOf(a: seq<Message>, b: seq<Message>)
    requires FirstOther(a).Some?
    ensures FirstOther(a + b) == FirstOther(a) && Evicted(a + b) == Evicted(a) + b
  {
    assert (a + b)[1..] == a[1..] + b;
    if Interrupts(a[0]) {
      FirstOtherOf(a[1..], b);
    }
  }

  lemma {:induction false} NoOther(a: seq<Message>, m: Message)
    requires FirstOther(a).None?
    ensures FirstOther(a + [m]) == if Interrupts(m) then None else Some(|a|)
  {
    if a == [] {
      assert a + [m] == [m];
      assert [m][1..] == [];
    } else {
      assert (a + [m])[1..] == a[1..] + [m];
      NoOther(a[1..], m);
    }
  }

  /** One arrival keeps it so. */
  lemma KeptIsTheShare(h: seq<Message>, m: Message)
    requires |Share(h)| <= AT_MOST
    ensures Kept(Share(h), m) == Share(h + [m])
  {
    hide Newest, Count, Evicted;
    CountAppends(h, m, true);
    if Count(h, true) < AT_MOST {
      WithRoomForCries(h, m, Count(h, true));
    } else if Interrupts(m) {
      CryWhenFull(h, m);
    } else {
      OtherWhenFull(h, m);
    }
  }

  lemma WithRoomForCries(h: seq<Message>, m: Message, cries: nat)
    requires cries == Count(h, true) < AT_MOST
    ensures var others := AT_MOST - cries; var held := Newest(h, cries, others);
            && |held| <= AT_MOST
            && Kept(held, m) == if Interrupts(m) then Newest(h + [m], cries + 1, others - 1)
                                else Newest(h + [m], cries, others)
  {
    hide Newest, Count, Evicted;
    var others := AT_MOST - cries;
    NewestLength(h, cries, others);
    if Interrupts(m) {
      NewestAppends(h, m, cries + 1, others - 1);
    } else {
      NewestAppends(h, m, cries, others);
    }
    if Count(h, false) > others - 1 {
      EvictsOldestOther(h, cries, others - 1);
      FirstOtherOf(Newest(h, cries, others), [m]);
    } else {
      RoomToSpare(h, cries, others - 1);
    }
  }

  lemma CryWhenFull(h: seq<Message>, m: Message)
    requires Interrupts(m) && Count(h, true) >= AT_MOST
    ensures |Newest(h, AT_MOST, 0)| == AT_MOST
    ensures Evicted(Newest(h, AT_MOST, 0) + [m]) == Newest(h + [m], AT_MOST, 0)
  {
    var kept := Newest(h, AT_MOST, 0);
    NewestLength(h, AT_MOST, 0);
    EvictsOldestCry(h, AT_MOST - 1);
    NoOther(kept, m);
    NewestAppends(h, m, AT_MOST, 0);
    assert (kept + [m])[1..] == kept[1..] + [m];
  }

  lemma OtherWhenFull(h: seq<Message>, m: Message)
    requires !Interrupts(m) && Count(h, true) >= AT_MOST
    ensures |Newest(h, AT_MOST, 0)| == AT_MOST
    ensures Evicted(Newest(h, AT_MOST, 0) + [m]) == Newest(h + [m], AT_MOST, 0)
  {
    var kept := Newest(h, AT_MOST, 0);
    NewestLength(h, AT_MOST, 0);
    OnlyCries(h, AT_MOST);
    NoOther(kept, m);
    NewestIgnores(h, m, AT_MOST);
    assert (kept + [m])[..|kept|] == kept;
  }

  /** Everything ever sent, put in one after another. */
  function AllKept(history: seq<Message>): (held: seq<Message>)
    ensures |held| <= AT_MOST
  {
    if history == [] then [] else Kept(AllKept(history[..|history| - 1]), history[|history| - 1])
  }

  /** However long the history: the inbox is that history in order, cut to its newest cries for help,
      fifty at the most, and to the newest of the rest that fit beside them. */
  lemma {:induction false} InboxIsTheShare(history: seq<Message>)
    ensures AllKept(history) == Share(history)
  {
    if history != [] {
      var h, m := history[..|history| - 1], history[|history| - 1];
      assert history == h + [m];
      InboxIsTheShare(h);
      KeptIsTheShare(h, m);
    }
  }

  // ---- How long a row is -----------------------------------------------------------------------------------

  /** The bytes of one character inside a JSON string. */
  function CharBytes(c: char): (n: nat)
    ensures 1 <= n <= 6
  {
    if c == '"' || c == '\\' || c == '\n' || c == '\r' || c == '\t' || c == 8 as char || c == 12 as char then 2
    else if c < 32 as char then 6
    else if c < 0x80 as char then 1
    else if c < 0x800 as char then 2
    else if c < 0x1_0000 as char then 3
    else 4
  }

  /** How a character stands in a JSON string, where it may not stand as it is (section 7 of RFC 8259). */
  function Escaped(c: char): Option<string> {
    if c == '"' then Some("\\\"")
    else if c == '\\' then Some("\\\\")
    else if c == '\n' then Some("\\n")
    else if c == '\r' then Some("\\r")
    else if c == '\t' then Some("\\t")
    else if c == 8 as char then Some("\\b")
    else if c == 12 as char then Some("\\f")
    else if c < 32 as char then Some("\\u00" + [Hex(c as int / 16)] + [Hex(c as int % 16)])
    else None
  }

  function Hex(n: nat): char
    requires n < 16
  {
    "0123456789abcdef"[n]
  }

  /** And how many bytes it takes in UTF-8 where it may (section 3 of RFC 3629). */
  function Utf8Length(c: char): nat {
    var n := c as int;
    if n <= 0x7F then 1 else if n <= 0x7FF then 2 else if n <= 0xFFFF then 3 else 4
  }

  lemma CharBytesExactly(c: char)
    ensures CharBytes(c) == match Escaped(c) case Some(escape) => |escape| case None => Utf8Length(c)
  {
  }

  function StringBytes(s: string): nat {
    if s == "" then 0 else CharBytes(s[0]) + StringBytes(s[1..])
  }

  function SortName(sort: Sort): string {
    match sort
    case Note => "note"
    case Question => "question"
    case Answer => "answer"
    case Attention => "attention"
    case Report => "report"
    case Claim => "claim"
    case Release => "release"
    case Handoff => "handoff"
    case Trouble => "trouble"
  }

  /** Those that interrupt are the cries for help, under either of the names they go by. */
  lemma CriesForHelp(m: Message)
    ensures Interrupts(m) <==> SortName(m.sort) in {"attention", "trouble"}
  {
  }

  /** What a row takes besides its text: the names of its fields and all its other values. A backtick
      stands for a double quote here. */
  function Besides(m: Message): nat {
    |"{`id`:``,`from`:``,`sort`:``,`text`:``,`at`:}"|
    + StringBytes(m.id) + StringBytes(m.sender) + |SortName(m.sort)| + |Written(m.at)|
    + (if m.about.Some? then |",`about`:``"| + StringBytes(m.about.value) else 0)
    + (if m.hops > 0 then |",`hops`:"| + |Written(m.hops)| else 0)
  }

  function Whole(m: Message): nat {
    Besides(m) + StringBytes(m.text)
  }

  /** The text kept of a message whose row would not fit alone. */
  function CutText(text: string, page: nat): string {
    if |text| <= page / 8 then text else text[..page / 8]
  }

  // ---- Reading it in pages ----------------------------------------------------------------------------------

  /** One row: the message, and whether its text was cut. */
  datatype Row = Row(message: Message, truncated: bool)

  function RowOf(m: Message, page: nat): Row {
    if Whole(m) > page then Row(m.(text := CutText(m.text, page)), true) else Row(m, false)
  }

  function Bytes(row: Row): nat {
    Whole(row.message) + if row.truncated then |",`truncated`:true"| else 0
  }

  /** A row that fits is the message as it is; one that does not is marked, and only its text is cut, to
      its first characters, an eighth as many as a page has bytes. */
  lemma RowIs(m: Message, page: nat)
    ensures var row := RowOf(m, page);
            && (row.truncated <==> Whole(m) > page)
            && (!row.truncated ==> row.message == m)
            && row.message == m.(text := row.message.text) && row.message.text <= m.text
            && (row.truncated ==> |row.message.text| == Min(|m.text|, page / 8))
  {
    hide Whole;
  }

  function RowsOf(held: seq<Message>, page: nat): seq<Row> {
    seq(|held|, n requires 0 <= n < |held| => RowOf(held[n], page))
  }

  function Size(rows: seq<Row>): nat {
    if rows == [] then 0 else Size(rows[..|rows| - 1]) + Bytes(rows[|rows| - 1])
  }

  /** A page starts where it is asked to and is never empty while anything is left. It takes more bytes
      than it may exactly when its first row does, and then that row is the whole page. */
  method Paged(held: seq<Message>, skip: nat, page: nat) returns (out: seq<Row>)
    ensures skip <= |held| ==> out <= RowsOf(held, page)[skip..]
    ensures skip < |held| ==> out != []
    ensures skip >= |held| ==> out == []
    ensures Size(out) > page <==> skip < |held| && Bytes(RowOf(held[skip], page)) > page
    ensures Size(out) > page ==> |out| == 1
  {
    hide Size, Bytes, RowOf;
    NoRows();
    out := [];
    var size := 0;
    var n := skip;
    ghost var rows := RowsOf(held, page);
    while n < |held|
      invariant skip < |held| ==> skip <= n <= |held| && out == rows[skip..n]
      invariant skip >= |held| ==> n == skip && out == []
      invariant size == Size(out)
      invariant size > page ==> |out| == 1
      invariant out != [] ==> (size > page <==> Bytes(RowOf(held[skip], page)) > page)
    {
      var row := RowOf(held[n], page);
      if size + Bytes(row) > page && out != [] {
        return;
      }
      SizeAppends(out, row);
      RowIsSomething(row);
      size := size + Bytes(row);
      assert rows[n] == row && rows[skip..n] + [rows[n]] == rows[skip..n + 1];
      out := out + [row];
      n := n + 1;
    }
  }

  lemma NoRows()
    ensures Size([]) == 0
  {
  }

  lemma SizeAppends(rows: seq<Row>, row: Row)
    ensures Size(rows + [row]) == Size(rows) + Bytes(row)
  {
    assert (rows + [row])[..|rows|] == rows;
  }

  /** No row is shorter than the names of its fields. */
  lemma RowIsSomething(row: Row)
    ensures Bytes(row) >= 45
  {
    assert |"{`id`:``,`from`:``,`sort`:``,`text`:``,`at`:}"| == 45;
  }

  // ---- The reply a page goes out in ---------------------------------------------------------------------

  const PAGE: nat := Framing.MOST / 2

  /** A page as the body of a reply. */
  function ReplyBytes(rows: seq<Row>): nat {
    |"{`ok`:true,`family`:1,`n`:,`result`:[]}"| + |Written(|rows|)| + Size(rows)
    + if rows == [] then 0 else |rows| - 1
  }

  /** One row that no reply can carry, its text cut and all. */
  predicate Oversized(m: Message) {
    Bytes(RowOf(m, PAGE)) + 40 > Framing.MOST
  }

  lemma {:induction false} RowsTakeRoom(rows: seq<Row>)
    ensures 45 * |rows| <= Size(rows)
  {
    hide Bytes;
    if rows != [] {
      RowsTakeRoom(rows[..|rows| - 1]);
      RowIsSomething(rows[|rows| - 1]);
    }
  }

  /** A page within its bytes always fits a frame, whatever its rows. */
  lemma PageFits(rows: seq<Row>)
    requires Size(rows) <= PAGE
    ensures ReplyBytes(rows) <= Framing.MOST
  {
    hide Size;
    RowsTakeRoom(rows);
    assert |"{`ok`:true,`family`:1,`n`:,`result`:[]}"| == 39;
    assert Pow10(8) == 100_000_000 by {
      assert Pow10(4) == 10_000;
    }
    WrittenLength(|rows|, 8);
  }

  lemma OneRow(held: seq<Message>, skip: nat, rows: seq<Row>)
    requires skip < |held| && rows == [RowOf(held[skip], PAGE)]
    ensures ReplyBytes(rows) <= Framing.MOST <==> !Oversized(held[skip])
  {
    hide Bytes, RowOf;
    assert Size(rows) == Bytes(RowOf(held[skip], PAGE)) by {
      NoRows();
      SizeAppends([], RowOf(held[skip], PAGE));
      assert [] + rows == rows;
    }
    assert |"{`ok`:true,`family`:1,`n`:,`result`:[]}"| == 39 && |Written(1)| == 1;
  }

  /** Whether the answer to a page is its rows, or the refusal that takes the place of a reply over the
      frame's cap. */
  method PageReply(held: seq<Message>, skip: nat) returns (reply: Option<seq<Row>>)
    ensures reply.None? <==> skip < |held| && Oversized(held[skip])
    ensures reply.Some? && skip <= |held| ==> reply.value <= RowsOf(held, PAGE)[skip..]
    ensures reply.Some? ==> (reply.value == [] <==> skip >= |held|)
    ensures reply.Some? && reply.value != [] ==> skip + |reply.value| <= |held|
    ensures reply.Some? ==> forall k :: skip <= k < |held| && k < skip + |reply.value| ==> !Oversized(held[k])
    ensures reply.Some? ==> Size(reply.value) <= PAGE || |reply.value| == 1
  {
    hide Bytes, RowOf, Size, Written, ReplyBytes;
    var rows := Paged(held, skip, PAGE);
    if Size(rows) <= PAGE {
      PageFits(rows);
      forall k | skip <= k < skip + |rows|
        ensures k < |held| && !Oversized(held[k])
      {
        assert rows[k - skip] == RowsOf(held, PAGE)[skip..][k - skip];
        SizeOfOne(rows, k - skip);
      }
    } else {
      assert rows[0] == RowsOf(held, PAGE)[skip..][0];
      OneRow(held, skip, rows);
    }
    return if ReplyBytes(rows) <= Framing.MOST then Some(rows) else None;
  }

  lemma {:induction false} SizeOfOne(rows: seq<Row>, k: nat)
    requires k < |rows|
    ensures Bytes(rows[k]) <= Size(rows)
  {
    hide Bytes;
    if k < |rows| - 1 {
      SizeOfOne(rows[..|rows| - 1], k);
    }
  }

  /** Where the first row stands that no reply can carry; the end where there is none. */
  function FirstOver(held: seq<Message>): (at: nat)
    ensures at <= |held|
  {
    if held == [] || Oversized(held[0]) then 0 else 1 + FirstOver(held[1..])
  }

  lemma {:induction false} FirstOverIs(held: seq<Message>)
    ensures forall k :: 0 <= k < FirstOver(held) ==> !Oversized(held[k])
    ensures FirstOver(held) < |held| ==> Oversized(held[FirstOver(held)])
  {
    hide Oversized;
    if held != [] && !Oversized(held[0]) {
      FirstOverIs(held[1..]);
    }
  }

  /** What the reader has, `held(k)` being the inbox when page `k` was asked for and `starts` how many rows
      it had before each: every row is the one at its place in the inbox its page was read from, and the
      page after the last is empty or refused. */
  ghost predicate ReadBy(held: nat -> seq<Message>, starts: seq<nat>, out: seq<Row>) {
    PagesRead(held, starts, out) && Ended(held(|starts| - 1), |out|)
  }

  ghost predicate PagesRead(held: nat -> seq<Message>, starts: seq<nat>, out: seq<Row>) {
    && starts != [] && starts[0] == 0 && starts[|starts| - 1] == |out|
    && (forall k :: 0 <= k < |starts| - 1 ==>
          starts[k] < starts[k + 1] && PageIs(held(k), starts[k], starts[k + 1], out))
  }

  ghost predicate PageIs(held: seq<Message>, start: nat, end: nat, out: seq<Row>) {
    && start <= end <= |held| && end <= |out| && out[start..end] == RowsOf(held, PAGE)[start..end]
    && (forall i :: start <= i < end ==> !Oversized(held[i]))
    && (Size(out[start..end]) <= PAGE || end == start + 1)
  }

  predicate Ended(held: seq<Message>, seen: nat) {
    seen < |held| ==> Oversized(held[seen])
  }

  /** Nothing leaves it, and what comes is put in after the rest. */
  ghost predicate Grows(held: nat -> seq<Message>) {
    forall j: nat, k: nat :: j <= k ==> held(j) <= held(k)
  }

  /** Reading pages until one comes back empty, or refused, whatever happens to the inbox meanwhile. Of one
      that only grows it reads exactly the messages before the first whose row no reply can carry, each
      once and in order, those that come during the reading too: so every message if and only if there
      is no such one. */
  method InboxOf(held: nat -> seq<Message>) returns (out: seq<Row>)
    requires forall k :: |held(k)| <= AT_MOST
    ensures exists starts: seq<nat> :: ReadBy(held, starts, out) && (Grows(held) ==> ReadWhole(held(|starts| - 1), out))
  {
    hide Oversized, RowOf, RowsOf, FirstOver, PagesRead, Grows, ReadWhole;
    out := [];
    ghost var starts: seq<nat> := [0];
    NoPages(held);
    var asked := 0;
    while true
      invariant |starts| == asked + 1 && PagesRead(held, starts, out) && |out| <= AT_MOST
      decreases AT_MOST - |out|
    {
      var reply := PageReply(held(asked), |out|);
      if reply.None? || reply.value == [] {
        break;
      }
      OnePageMore(held, starts, out, reply.value);
      out := out + reply.value;
      starts := starts + [|out|];
      asked := asked + 1;
    }
    assert ReadBy(held, starts, out);
    if Grows(held) {
      GrownIsRead(held, starts, out);
      WholeIs(held(asked), out);
    }
  }

  /** Exactly the messages before the first whose row no reply can carry; and so all of them if and only if
      there is no such one. */
  predicate ReadWhole(held: seq<Message>, out: seq<Row>) {
    && out == RowsOf(held, PAGE)[..FirstOver(held)]
    && (out == RowsOf(held, PAGE) <==> forall m :: m in held ==> !Oversized(m))
  }

  lemma WholeIs(held: seq<Message>, out: seq<Row>)
    requires out == RowsOf(held, PAGE)[..FirstOver(held)]
    ensures ReadWhole(held, out)
  {
    hide Oversized, RowOf, RowsOf, FirstOver;
    AllOrNot(held);
  }

  lemma NoPages(held: nat -> seq<Message>)
    ensures PagesRead(held, [0], [])
  {
  }

  lemma OnePageMore(held: nat -> seq<Message>, starts: seq<nat>, out: seq<Row>, rows: seq<Row>)
    requires PagesRead(held, starts, out) && rows != []
    requires var now := held(|starts| - 1);
             && |out| + |rows| <= |now| && rows <= RowsOf(now, PAGE)[|out|..] && (Size(rows) <= PAGE || |rows| == 1)
             && forall k :: |out| <= k < |out| + |rows| ==> !Oversized(now[k])
    ensures PagesRead(held, starts + [|out + rows|], out + rows)
    ensures |out + rows| <= |held(|starts| - 1)|
  {
    hide Oversized, RowOf, RowsOf, Size, PageIs;
    var n := |starts| - 1;
    var more := starts + [|out + rows|];
    NewPage(held(n), out, rows);
    PageGrows(held, starts, out, rows);
    forall k | 0 <= k < |more| - 1
      ensures more[k] < more[k + 1] && PageIs(held(k), more[k], more[k + 1], out + rows)
    {
      if k < n {
        assert more[k] == starts[k] && more[k + 1] == starts[k + 1];
        assert starts[k] < starts[k + 1];
      }
    }
  }

  lemma PageGrows(held: nat -> seq<Message>, starts: seq<nat>, out: seq<Row>, rows: seq<Row>)
    requires forall k :: 0 <= k < |starts| - 1 ==> PageIs(held(k), starts[k], starts[k + 1], out)
    ensures forall k :: 0 <= k < |starts| - 1 ==> PageIs(held(k), starts[k], starts[k + 1], out + rows)
  {
    hide Oversized, RowOf, RowsOf, Size;
    forall k | 0 <= k < |starts| - 1
      ensures PageIs(held(k), starts[k], starts[k + 1], out + rows)
    {
      assert PageIs(held(k), starts[k], starts[k + 1], out);
      assert (out + rows)[starts[k]..starts[k + 1]] == out[starts[k]..starts[k + 1]];
    }
  }

  lemma NewPage(held: seq<Message>, out: seq<Row>, rows: seq<Row>)
    requires |out| + |rows| <= |held| && rows <= RowsOf(held, PAGE)[|out|..] && (Size(rows) <= PAGE || |rows| == 1)
    requires forall k :: |out| <= k < |out| + |rows| ==> !Oversized(held[k])
    ensures PageIs(held, |out|, |out| + |rows|, out + rows)
  {
    hide Oversized, RowOf, RowsOf, Size;
    AsManyRows(held);
    assert (out + rows)[|out|..|out| + |rows|] == rows;
    Start(RowsOf(held, PAGE), |out|, rows);
  }

  lemma AsManyRows(held: seq<Message>)
    ensures |RowsOf(held, PAGE)| == |held|
  {
  }

  lemma Start(all: seq<Row>, from: nat, rows: seq<Row>)
    requires from + |rows| <= |all| && rows <= all[from..]
    ensures all[from..from + |rows|] == rows
  {
  }

  /** What was read of an inbox that has only grown since is what stands at its place now. */
  lemma {:induction false} GrownPrefix(held: nat -> seq<Message>, starts: seq<nat>, out: seq<Row>, n: nat)
    requires Grows(held) && n < |starts| && starts[0] == 0
    requires forall k :: 0 <= k < |starts| - 1 ==> PageIs(held(k), starts[k], starts[k + 1], out)
    requires starts[n] <= |out|
    ensures starts[n] <= FirstOver(held(n)) && out[..starts[n]] == RowsOf(held(n), PAGE)[..starts[n]]
    decreases n
  {
    hide Oversized, RowOf, FirstOver, Size;
    FirstOverIs(held(n));
    if n > 0 {
      var was, now := held(n - 1), held(n);
      assert PageIs(was, starts[n - 1], starts[n - 1 + 1], out);
      GrownPrefix(held, starts, out, n - 1);
      FirstOverIs(was);
      assert was <= now;
      forall i | 0 <= i < starts[n]
        ensures out[i] == RowsOf(now, PAGE)[i] && !Oversized(now[i])
      {
        if i < starts[n - 1] {
          assert out[..starts[n - 1]][i] == RowsOf(was, PAGE)[..starts[n - 1]][i];
        } else {
          assert out[starts[n - 1]..starts[n]][i - starts[n - 1]]
              == RowsOf(was, PAGE)[starts[n - 1]..starts[n]][i - starts[n - 1]];
        }
      }
    }
  }

  lemma GrownIsRead(held: nat -> seq<Message>, starts: seq<nat>, out: seq<Row>)
    requires Grows(held) && ReadBy(held, starts, out)
    ensures out == RowsOf(held(|starts| - 1), PAGE)[..FirstOver(held(|starts| - 1))]
  {
    hide Oversized, RowOf, FirstOver, PageIs;
    var n := |starts| - 1;
    GrownPrefix(held, starts, out, n);
    FirstOverIs(held(n));
  }

  lemma AllOrNot(held: seq<Message>)
    ensures FirstOver(held) == |held| <==> forall m :: m in held ==> !Oversized(m)
    ensures RowsOf(held, PAGE)[..FirstOver(held)] == RowsOf(held, PAGE) <==> FirstOver(held) == |held|
  {
    hide Oversized, RowOf;
    FirstOverIs(held);
    if FirstOver(held) == |held| {
      forall m | m in held
        ensures !Oversized(m)
      {
        var k :| 0 <= k < |held| && held[k] == m;
      }
    }
  }

  // ---- An inbox that does not only grow -------------------------------------------------------------------

  /** Where the message is that makes room for `m`. */
  function PutOut(full: seq<Message>, m: Message): (at: nat)
    ensures at <= |full|
  {
    var first := FirstOther(full + [m]);
    if first.Some? then first.value else 0
  }

  lemma WithoutOne(full: seq<Message>, m: Message, at: nat, seen: nat)
    requires at <= |full| && seen < |full|
    ensures at < seen ==> Without(full + [m], at)[seen..] == full[seen + 1..] + [m]
    ensures seen <= at < |full| ==> Without(full + [m], at)[seen..] == Without(full, at)[seen..] + [m]
    ensures at == |full| ==> Without(full + [m], at) == full
  {
  }

  /** One arrival at a full inbox, `seen` of it read: what the next page starts from. The first unread
      message is passed over exactly when the one put out is among those read. */
  lemma ArrivalShifts(full: seq<Message>, m: Message, seen: nat)
    requires |full| == AT_MOST && seen < |full|
    ensures PutOut(full, m) < seen ==> Kept(full, m)[seen..] == full[seen + 1..] + [m]
    ensures seen <= PutOut(full, m) < |full| ==> Kept(full, m)[seen..] == Without(full, PutOut(full, m))[seen..] + [m]
    ensures PutOut(full, m) == |full| ==> Kept(full, m) == full
  {
    hide Without;
    WithoutOne(full, m, PutOut(full, m), seen);
  }

  function Between(full: seq<Message>, m: Message): nat -> seq<Message>
    requires |full| == AT_MOST
  {
    var later := Kept(full, m);
    (k: nat) => if k == 0 then full else later
  }

  lemma OldestIsPutOut(full: seq<Message>, m: Message)
    requires |full| == AT_MOST && !Interrupts(full[0])
    ensures Kept(full, m) == full[1..] + [m]
  {
    assert FirstOther(full + [m]) == Some(0);
  }

  /** Where the first two rows take a page each and one message comes between the first page and the next,
      the second is never read, though it was there all along. */
  lemma SecondIsNotRead(full: seq<Message>, m: Message, starts: seq<nat>, out: seq<Row>)
    requires |full| == AT_MOST && !Interrupts(full[0]) && ReadBy(Between(full, m), starts, out)
    requires Bytes(RowOf(full[0], PAGE)) + Bytes(RowOf(full[1], PAGE)) > PAGE
    requires OnlyOne(full, m)
    ensures full[1] in full && full[1] in Kept(full, m)
    ensures forall i :: 0 <= i < |out| ==> out[i].message.id != full[1].id
  {
    hide Bytes, Oversized, Interrupts, PageIs, RowOf, Kept, OnlyOne, Between;
    OldestIsPutOut(full, m);
    assert Kept(full, m)[0] == full[1];
    if |starts| > 1 {
      var held := Between(full, m);
      assert PageIs(held(0), starts[0], starts[0 + 1], out);
      BetweenIs(full, m, 0);
      FirstPageIsOne(full, starts[1], out);
      forall i | 0 <= i < |out|
        ensures out[i].message.id != full[1].id
      {
        RowAt(held, starts, out, |starts| - 1, i);
        var k: nat :| k < |starts| - 1 && starts[k] <= i < starts[k + 1] && i < |held(k)|
                      && out[i] == RowOf(held(k)[i], PAGE);
        if k > 0 {
          StartsRise(starts, 1, k);
        }
        NotTheSecond(full, m, k, i);
      }
    }
  }

  /** The second is the only one with its id. */
  predicate OnlyOne(full: seq<Message>, m: Message)
    requires |full| == AT_MOST
  {
    m.id != full[1].id && forall i :: 0 <= i < |full| && i != 1 ==> full[i].id != full[1].id
  }

  lemma BetweenIs(full: seq<Message>, m: Message, k: nat)
    requires |full| == AT_MOST
    ensures Between(full, m)(k) == if k == 0 then full else Kept(full, m)
  {
  }

  lemma {:induction false} StartsRise(starts: seq<nat>, j: nat, k: nat)
    requires j <= k < |starts| && forall n :: 0 <= n < |starts| - 1 ==> starts[n] < starts[n + 1]
    ensures starts[j] <= starts[k]
    decreases k - j
  {
    if j < k {
      StartsRise(starts, j, k - 1);
      assert starts[k - 1] < starts[k - 1 + 1];
    }
  }

  lemma NotTheSecond(full: seq<Message>, m: Message, k: nat, i: nat)
    requires |full| == AT_MOST && !Interrupts(full[0]) && OnlyOne(full, m)
    requires i < |Between(full, m)(k)| && (k == 0 ==> i == 0) && (k > 0 ==> i > 0)
    ensures RowOf(Between(full, m)(k)[i], PAGE).message.id != full[1].id
  {
    hide Interrupts, Between, Kept;
    BetweenIs(full, m, k);
    OldestIsPutOut(full, m);
  }

  /** A note of half a page, with an id `n` long. */
  function Long(n: nat): Message {
    Message(seq(n, _ => 'x'), "", Note, "", Some(seq(PAGE / 2, _ => 'x')), 0, 0)
  }

  lemma LongFits(n: nat)
    requires n <= 1000
    ensures PAGE < 2 * Bytes(RowOf(Long(n), PAGE)) && !Oversized(Long(n)) && !Interrupts(Long(n))
  {
    PlainBytes(n);
    PlainBytes(PAGE / 2);
    assert |Written(0)| == 1;
    assert |"{`id`:``,`from`:``,`sort`:``,`text`:``,`at`:}"| == 45 && |",`about`:``"| == 11 && |SortName(Note)| == 4;
    LongIs(Long(n), n);
  }

  lemma LongIs(m: Message, n: nat)
    requires n <= 1000 && m.sender == "" && m.text == "" && m.sort == Note && m.hops == 0 && m.about.Some?
    requires StringBytes(m.id) == n && StringBytes(m.about.value) == PAGE / 2 && |Written(m.at)| == 1
    ensures Whole(m) == 61 + n + PAGE / 2
    ensures RowOf(m, PAGE) == Row(m, false) && Bytes(RowOf(m, PAGE)) == Whole(m) && !Oversized(m)
  {
    assert |"{`id`:``,`from`:``,`sort`:``,`text`:``,`at`:}"| == 45 && |",`about`:``"| == 11 && |SortName(Note)| == 4;
    assert StringBytes("") == 0;
  }

  /** So a message can be missed though every row fits a frame: here is an inbox, and an arrival, for which
      no reading finds the second message. */
  lemma AMessageIsMissed() returns (full: seq<Message>, m: Message)
    ensures |full| == AT_MOST && !Oversized(m) && forall i :: 0 <= i < |full| ==> !Oversized(full[i])
    ensures full[1] in full && full[1] in Kept(full, m)
    ensures forall starts: seq<nat>, out: seq<Row>, i: nat :: ReadBy(Between(full, m), starts, out) && i < |out| ==>
              out[i].message.id != full[1].id
  {
    hide Bytes, Oversized, Interrupts, RowOf, ReadBy, Between;
    full := seq(AT_MOST, i requires 0 <= i < AT_MOST => Long(i));
    m := Long(AT_MOST);
    forall n | 0 <= n <= AT_MOST
      ensures PAGE < 2 * Bytes(RowOf(Long(n), PAGE)) && !Oversized(Long(n)) && !Interrupts(Long(n))
    {
      LongFits(n);
    }
    assert full[0] == Long(0) && full[1] == Long(1);
    OldestIsPutOut(full, m);
    assert Kept(full, m)[0] == full[1];
    assert |full[1].id| == 1;
    forall starts: seq<nat>, out: seq<Row>, i: nat | ReadBy(Between(full, m), starts, out) && i < |out|
      ensures out[i].message.id != full[1].id
    {
      SecondIsNotRead(full, m, starts, out);
    }
  }

  lemma FirstPageIsOne(full: seq<Message>, end: nat, out: seq<Row>)
    requires PageIs(full, 0, end, out) && 0 < end && |full| > 1
    requires Bytes(RowOf(full[0], PAGE)) + Bytes(RowOf(full[1], PAGE)) > PAGE
    ensures end == 1
  {
    hide Bytes, RowOf, Oversized;
    if end > 1 {
      var rows := out[0..end];
      assert rows[0] == RowOf(full[0], PAGE) && rows[1] == RowOf(full[1], PAGE);
      TwoOf(rows);
    }
  }

  lemma {:induction false} TwoOf(rows: seq<Row>)
    requires |rows| >= 2
    ensures Bytes(rows[0]) + Bytes(rows[1]) <= Size(rows)
  {
    hide Bytes;
    if |rows| == 2 {
      assert rows[..1][..0] == [] && rows == [rows[0]] + [rows[1]];
      NoRows();
      SizeAppends([], rows[0]);
      SizeAppends([rows[0]], rows[1]);
      assert [] + [rows[0]] == [rows[0]];
    } else {
      TwoOf(rows[..|rows| - 1]);
    }
  }

  /** Every row read comes from the inbox its page was read from. */
  lemma {:induction false} RowAt(held: nat -> seq<Message>, starts: seq<nat>, out: seq<Row>, n: nat, i: nat)
    requires n < |starts| && starts[0] == 0 && i < starts[n] <= |out|
    requires forall k :: 0 <= k < |starts| - 1 ==> PageIs(held(k), starts[k], starts[k + 1], out)
    ensures exists k: nat :: k < n && starts[k] <= i < starts[k + 1] && i < |held(k)| && out[i] == RowOf(held(k)[i], PAGE)
    decreases n
  {
    hide RowOf, Oversized, Size;
    assert PageIs(held(n - 1), starts[n - 1], starts[n - 1 + 1], out);
    if i < starts[n - 1] {
      RowAt(held, starts, out, n - 1, i);
    } else {
      assert out[starts[n - 1]..starts[n]][i - starts[n - 1]]
          == RowsOf(held(n - 1), PAGE)[starts[n - 1]..starts[n]][i - starts[n - 1]];
    }
  }

  // ---- A message that does it -----------------------------------------------------------------------------

  /** The call that sends a note about something, as the frame's body. */
  function TellBytes(m: Message): nat
    requires m.about.Some?
  {
    |"{`call`:`tell`,`args`:[``,`note`,``],`from`:``}"| + StringBytes(m.text) + StringBytes(m.about.value)
    + StringBytes(m.sender)
  }

  lemma {:induction false} PlainBytes(n: nat)
    ensures StringBytes(seq(n, _ => 'x')) == n
  {
    if n > 0 {
      assert seq(n, _ => 'x')[1..] == seq(n - 1, _ => 'x');
      PlainBytes(n - 1);
    }
  }

  /** Where the text of a message is bounded, what it is about is not. A note whose call fills a frame
      makes a row that does not fit one, and being first it hides every message there is. */
  lemma OneMessageHidesTheRest(id: string, at: nat, rest: seq<Message>) returns (m: Message)
    ensures m.id == id && m.at == at && |m.text| <= 2000
    ensures m.about.Some? && TellBytes(m) == Framing.MOST && Oversized(m)
    ensures FirstOver([m] + rest) == 0
  {
    assert StringBytes("hi") == 2 by {
      assert "hi"[1..] == "i" && "i"[1..] == "";
    }
    assert StringBytes("a/b/c") == 5 by {
      assert "a/b/c"[1..] == "/b/c" && "/b/c"[1..] == "b/c" && "b/c"[1..] == "/c" && "/c"[1..] == "c" && "c"[1..] == "";
    }
    var n := Framing.MOST - 54;
    m := Message(id, "a/b/c", Note, "hi", Some(seq(n, _ => 'x')), 0, at);
    PlainBytes(n);
    FillsTheFrame(m, n);
  }

  lemma FillsTheFrame(m: Message, n: nat)
    requires n == Framing.MOST - 54 && m.about.Some? && StringBytes(m.about.value) == n
    requires m.sender == "a/b/c" && StringBytes(m.sender) == 5 && StringBytes(m.text) == 2 && m.text == "hi"
    requires m.sort == Note && m.hops == 0
    ensures TellBytes(m) == Framing.MOST && Oversized(m)
  {
    hide StringBytes;
    assert |"{`call`:`tell`,`args`:[``,`note`,``],`from`:``}"| == 47;
    assert |"{`id`:``,`from`:``,`sort`:``,`text`:``,`at`:}"| == 45;
    assert |",`about`:``"| == 11 && |",`truncated`:true"| == 17 && |SortName(Note)| == 4;
    assert Whole(m) >= 45 + 5 + 4 + 11 + n + 2;
    assert RowOf(m, PAGE).message == m;
  }
}
