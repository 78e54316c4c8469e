/** A listing of sessions read as a tree: `under`, the branch below one of them, and `tiered`, the
    whole listing as the indentation it becomes. The parent notes may say anything, rings
    included; all that is asked of a listing is that its ids differ. */
module Roster {
  import opened Options
  import opened Chains
  import opened Policy

  ghost predicate Distinct(held: seq<Whom>) {
    forall i, j :: 0 <= i < j < |held| ==> held[i].id != held[j].id
  }

  function Ids(held: seq<Whom>): set<Id> {
    set w | w in held :: w.id
  }

  // ---- Id order ----------------------------------------------------------------------------

  predicate Before(a: Id, b: Id)
    decreases |a|
  {
    b != "" && (a == "" || a[0] < b[0] || (a[0] == b[0] && Before(a[1..], b[1..])))
  }

  lemma {:induction false} BeforeTotal(a: Id, b: Id)
    ensures Before(a, b) || a == b || Before(b, a)
    ensures !(Before(a, b) && Before(b, a))
    decreases |a|
  {
    if a != "" && b != "" && a[0] == b[0] {
      BeforeTotal(a[1..], b[1..]);
      assert a == [a[0]] + a[1..] && b == [b[0]] + b[1..];
    }
  }

  lemma {:induction false} BeforeTransitive(a: Id, b: Id, c: Id)
    requires Before(a, b) && Before(b, c)
    ensures Before(a, c)
    decreases |a|
  {
    if a != "" && a[0] == b[0] && b[0] == c[0] {
      BeforeTransitive(a[1..], b[1..], c[1..]);
    }
  }

  ghost predicate InOrder(s: seq<Whom>) {
    forall i, j :: 0 <= i < j < |s| ==> Before(s[i].id, s[j].id)
  }

  function Inserted(s: seq<Whom>, w: Whom): (r: seq<Whom>)
    ensures forall x :: x in r <==> x in s || x == w
  {
    if s == [] || Before(w.id, s[0].id) then [w] + s else [s[0]] + Inserted(s[1..], w)
  }

  lemma {:induction false} InsertedInOrder(s: seq<Whom>, w: Whom)
    requires InOrder(s) && forall x :: x in s ==> x.id != w.id
    ensures InOrder(Inserted(s, w))
  {
    var r := Inserted(s, w);
    if s != [] && Before(w.id, s[0].id) {
      forall j | 0 < j < |s|
        ensures Before(w.id, s[j].id)
      {
        BeforeTransitive(w.id, s[0].id, s[j].id);
      }
    } else if s != [] {
      InsertedInOrder(s[1..], w);
      BeforeTotal(w.id, s[0].id);
      forall j | 0 < j < |r|
        ensures Before(s[0].id, r[j].id)
      {
        assert r[j] in Inserted(s[1..], w);
      }
    }
  }

  /** Those of `held` for which `keep` holds, in id order. */
  function Sorted(held: seq<Whom>, keep: Whom -> bool): (r: seq<Whom>)
    ensures forall x :: x in r <==> x in held && keep(x)
  {
    if held == [] then []
    else
      var rest := Sorted(held[1..], keep);
      if keep(held[0]) then Inserted(rest, held[0]) else rest
  }

  lemma {:induction false} SortedInOrder(held: seq<Whom>, keep: Whom -> bool)
    requires Distinct(held)
    ensures InOrder(Sorted(held, keep))
  {
    if held != [] {
      SortedInOrder(held[1..], keep);
      if keep(held[0]) {
        InsertedInOrder(Sorted(held[1..], keep), held[0]);
      }
    }
  }

  /** Whoever names `id` as the one that started them, in id order. */
  function BornTo(held: seq<Whom>, id: Id): seq<Whom> {
    Sorted(held, (w: Whom) => w.parent == Some(id))
  }

  // ---- under -------------------------------------------------------------------------------

  /** Every parent note of the listing, those naming somebody outside it included. */
  ghost function NotesOf(held: seq<Whom>): Notes
    requires Distinct(held)
  {
    map i | 0 <= i < |held| && held[i].parent.Some? :: held[i].id := held[i].parent.value
  }

  lemma NoteOf(held: seq<Whom>, w: Whom)
    requires Distinct(held) && w in held
    ensures w.id in NotesOf(held) <==> w.parent.Some?
    ensures w.parent.Some? ==> NotesOf(held)[w.id] == w.parent.value
  {
    var i :| 0 <= i < |held| && held[i] == w;
  }

  lemma SameWhom(held: seq<Whom>, a: Whom, b: Whom)
    requires Distinct(held) && a in held && b in held && a.id == b.id
    ensures a == b
  {
    var i :| 0 <= i < |held| && held[i] == a;
    var j :| 0 <= j < |held| && held[j] == b;
  }

  /** `x` stands `n` notes below `id`, and no fewer. */
  ghost predicate Distance(notes: Notes, x: Id, id: Id, n: nat) {
    Up(notes, x, n) == Some(id) && forall m: nat :: m < n ==> Up(notes, x, m) != Some(id)
  }

  lemma DistanceStep(notes: Notes, x: Id, id: Id, n: nat)
    requires x in notes && x != id && Distance(notes, notes[x], id, n)
    ensures Distance(notes, x, id, n + 1)
  {
    forall m: nat | m < n + 1
      ensures Up(notes, x, m) != Some(id)
    {
      assert m > 0 ==> Up(notes, x, m) == Up(notes, notes[x], m - 1);
    }
  }

  lemma DistanceUnique(notes: Notes, x: Id, id: Id, n: nat, m: nat)
    requires Distance(notes, x, id, n) && Distance(notes, x, id, m)
    ensures n == m
  {
  }

  lemma {:induction false} DistinctFit<T>(s: seq<T>, all: set<T>)
    requires forall i, j :: 0 <= i < j < |s| ==> s[i] != s[j]
    requires forall x :: x in s ==> x in all
    ensures |s| <= |all|
  {
    if s != [] {
      DistinctFit(s[1..], all - {s[0]});
    }
  }

  /** What the search has found so far: every id met with its distance, nearest first. */
  ghost predicate Found(held: seq<Whom>, id: Id, out: seq<Whom>, ids: seq<Id>, deep: seq<nat>)
    requires Distinct(held)
  {
    && |ids| == |out| + 1 && |deep| == |ids| && ids[0] == id && deep[0] == 0
    && (forall i :: 0 <= i < |out| ==> out[i] in held && ids[i + 1] == out[i].id && out[i].parent.Some?)
    && (forall i, j :: 0 <= i < j < |ids| ==> ids[i] != ids[j])
    && (forall i :: 0 <= i < |ids| ==> Distance(NotesOf(held), ids[i], id, deep[i]))
    && (forall i, j :: 0 <= i <= j < |ids| ==> deep[i] <= deep[j])
    && (forall i, j :: 0 <= i < j < |out| && out[i].parent == out[j].parent ==>
          Before(out[i].id, out[j].id))
  }

  lemma OneMoreFound(held: seq<Whom>, id: Id, out: seq<Whom>, ids: seq<Id>, deep: seq<nat>,
                     k: nat, w: Whom)
    requires Distinct(held) && Found(held, id, out, ids, deep)
    requires k < |ids| && deep[|deep| - 1] <= deep[k] + 1
    requires w in held && w.parent == Some(ids[k]) && w.id !in ids
    requires forall i :: 0 <= i < |out| && out[i].parent == w.parent ==> Before(out[i].id, w.id)
    ensures Found(held, id, out + [w], ids + [w.id], deep + [deep[k] + 1])
  {
    NoteOf(held, w);
    DistanceStep(NotesOf(held), w.id, id, deep[k]);
    var ids', deep' := ids + [w.id], deep + [deep[k] + 1];
    forall i, j | 0 <= i <= j < |ids'|
      ensures deep'[i] <= deep'[j]
    {
      if j == |ids| && i < |ids| {
        assert deep[i] <= deep[|deep| - 1];
      }
    }
  }

  /** The search after its first `k` ids were taken off the queue: the rest of `ids` is the queue,
      and everybody found was born to one of those `k`. */
  ghost predicate Searching(held: seq<Whom>, id: Id, out: seq<Whom>, ids: seq<Id>, deep: seq<nat>,
                            seen: set<Id>, edge: seq<Id>, k: nat)
    requires Distinct(held)
  {
    && Found(held, id, out, ids, deep)
    && seen == (set x | x in ids)
    && k <= |ids| && edge == ids[k..]
    && (forall i :: 0 <= i < |out| ==> out[i].parent.Some? && out[i].parent.value in ids[..k])
    && (if k == 0 then |ids| == 1 else deep[|deep| - 1] <= deep[k - 1] + 1)
  }

  /** The children of the first `k` ids have all been seen. */
  ghost predicate Explored(held: seq<Whom>, ids: seq<Id>, seen: set<Id>, k: nat)
    requires k <= |ids|
  {
    forall w :: w in held && w.parent.Some? && w.parent.value in ids[..k] ==> w.id in seen
  }

  /** One turn of the search: the children of the `k`-th id, seen and queued. */
  method Visit(held: seq<Whom>, id: Id, up: Id, seen0: set<Id>, edge0: seq<Id>, out0: seq<Whom>,
               ghost ids0: seq<Id>, ghost deep0: seq<nat>, ghost k: nat)
    returns (seen: set<Id>, edge: seq<Id>, out: seq<Whom>, ghost ids: seq<Id>, ghost deep: seq<nat>)
    requires Distinct(held) && Searching(held, id, out0, ids0, deep0, seen0, [up] + edge0, k)
    requires Explored(held, ids0, seen0, k)
    ensures Searching(held, id, out, ids, deep, seen, edge, k + 1)
    ensures Explored(held, ids, seen, k + 1)
  {
    hide Found, Explored, BornTo, Distinct;
    seen, edge, out, ids, deep := seen0, edge0, out0, ids0, deep0;
    var kids := BornTo(held, up);
    VisitBegins(held, id, up, seen, edge, out, ids, deep, k);
    for at := 0 to |kids|
      invariant Visiting(held, id, up, kids[..at], out0, out, ids0, ids, deep, seen, edge, k)
    {
      var them := kids[at];
      assert kids[..at + 1] == kids[..at] + [them];
      if them.id !in seen {
        VisitOne(held, id, up, kids, at, out0, out, ids0, ids, deep, seen, edge, k);
        ids, deep := ids + [them.id], deep + [deep[k] + 1];
        seen := seen + {them.id};
        out := out + [them];
        edge := edge + [them.id];
      }
    }
    assert kids[..|kids|] == kids;
    VisitEnds(held, id, up, seen0, edge0, out0, out, ids0, ids, deep0, deep, seen, edge, k);
  }

  /** Within one turn, `kids` being the children looked at so far. */
  ghost predicate Visiting(held: seq<Whom>, id: Id, up: Id, kids: seq<Whom>, out0: seq<Whom>,
                           out: seq<Whom>, ids0: seq<Id>, ids: seq<Id>, deep: seq<nat>,
                           seen: set<Id>, edge: seq<Id>, k: nat)
    requires Distinct(held)
  {
    && Found(held, id, out, ids, deep) && ids0 <= ids && out0 <= out
    && k < |ids0| && |deep| == |ids| && ids[k] == up && edge == ids[k + 1..]
    && seen == (set x | x in ids)
    && deep[|deep| - 1] <= deep[k] + 1
    && (forall w :: w in kids ==> w.id in seen)
    && (forall i :: 0 <= i < |out0| ==> out[i].parent != Some(up))
    && (forall i :: |out0| <= i < |out| ==> out[i] in kids && out[i].parent == Some(up))
  }

  lemma VisitBegins(held: seq<Whom>, id: Id, up: Id, seen: set<Id>, edge: seq<Id>, out: seq<Whom>,
                    ids: seq<Id>, deep: seq<nat>, k: nat)
    requires Distinct(held) && Searching(held, id, out, ids, deep, seen, [up] + edge, k)
    ensures Visiting(held, id, up, [], out, out, ids, ids, deep, seen, edge, k)
  {
    assert ids[k] == ([up] + edge)[0] == up;
    assert edge == ([up] + edge)[1..] == ids[k + 1..];
    assert k > 0 ==> deep[k - 1] <= deep[k];
  }

  lemma VisitOne(held: seq<Whom>, id: Id, up: Id, kids: seq<Whom>, at: nat, out0: seq<Whom>,
                 out: seq<Whom>, ids0: seq<Id>, ids: seq<Id>, deep: seq<nat>,
                 seen: set<Id>, edge: seq<Id>, k: nat)
    requires Distinct(held) && kids == BornTo(held, up) && at < |kids| && kids[at].id !in seen
    requires Visiting(held, id, up, kids[..at], out0, out, ids0, ids, deep, seen, edge, k)
    ensures Visiting(held, id, up, kids[..at + 1], out0, out + [kids[at]], ids0, ids + [kids[at].id],
                     deep + [deep[k] + 1], seen + {kids[at].id}, edge + [kids[at].id], k)
  {
    hide Found, BornTo, Before, Distinct;
    var them := kids[at];
    KidNext(held, up, at);
    forall i | 0 <= i < |out| && out[i].parent == them.parent
      ensures Before(out[i].id, them.id)
    {
      assert i >= |out0|;
    }
    OneMoreFound(held, id, out, ids, deep, k, them);
    assert kids[..at + 1] == kids[..at] + [them];
    assert (ids + [them.id])[k + 1..] == ids[k + 1..] + [them.id];
  }

  lemma KidNext(held: seq<Whom>, up: Id, at: nat)
    requires Distinct(held) && at < |BornTo(held, up)|
    ensures var them := BornTo(held, up)[at]; them in held && them.parent == Some(up)
    ensures forall w :: w in BornTo(held, up)[..at] ==> Before(w.id, BornTo(held, up)[at].id)
  {
    assert BornTo(held, up)[at] in BornTo(held, up);
    SortedInOrder(held, (w: Whom) => w.parent == Some(up));
  }

  lemma VisitEnds(held: seq<Whom>, id: Id, up: Id, seen0: set<Id>, edge0: seq<Id>, out0: seq<Whom>,
                  out: seq<Whom>, ids0: seq<Id>, ids: seq<Id>, deep0: seq<nat>, deep: seq<nat>,
                  seen: set<Id>, edge: seq<Id>, k: nat)
    requires Distinct(held) && Searching(held, id, out0, ids0, deep0, seen0, [up] + edge0, k)
    requires Explored(held, ids0, seen0, k)
    requires Visiting(held, id, up, BornTo(held, up), out0, out, ids0, ids, deep, seen, edge, k)
    ensures Searching(held, id, out, ids, deep, seen, edge, k + 1)
    ensures Explored(held, ids, seen, k + 1)
  {
    hide Found, BornTo, Distinct;
    assert ids[..k + 1] == ids0[..k] + [up];
    forall i | 0 <= i < |out|
      ensures out[i].parent.Some? && out[i].parent.value in ids[..k + 1]
    {
      assert i < |out0| ==> out[i] == out0[i];
    }
    VisitExplores(held, up, seen0, ids0, ids, seen, k);
  }

  lemma VisitExplores(held: seq<Whom>, up: Id, seen0: set<Id>, ids0: seq<Id>, ids: seq<Id>,
                      seen: set<Id>, k: nat)
    requires k < |ids0| && ids0 <= ids && ids[k] == up && Explored(held, ids0, seen0, k)
    requires seen0 <= seen && forall w :: w in BornTo(held, up) ==> w.id in seen
    ensures Explored(held, ids, seen, k + 1)
  {
    assert ids[..k + 1] == ids0[..k] + [up];
    forall w | w in held && w.parent.Some? && w.parent.value in ids[..k + 1]
      ensures w.id in seen
    {
      assert w.parent.value == up ==> w in BornTo(held, up);
    }
  }

  /** Everything below `id`, nearest first. */
  method Under(held: seq<Whom>, id: Id) returns (out: seq<Whom>)
    requires Distinct(held)
    ensures forall w :: w in out <==> w in held && w.id != id && Below(NotesOf(held), w.id, id)
    ensures forall i, j :: 0 <= i < j < |out| ==> out[i].id != out[j].id
    ensures forall i, j, n: nat, m: nat :: 0 <= i < j < |out|
              && Distance(NotesOf(held), out[i].id, id, n) && Distance(NotesOf(held), out[j].id, id, m)
              ==> n <= m
    ensures forall i, j :: 0 <= i < j < |out| && out[i].parent == out[j].parent ==>
              Before(out[i].id, out[j].id)
  {
    hide Found, Explored, BornTo;
    var seen := {id};
    var edge := [id];
    out := [];
    ghost var ids: seq<Id>, deep: seq<nat>, k: nat := [id], [0], 0;
    ghost var all := Ids(held) + {id};
    SearchBegins(held, id);
    while edge != []
      invariant Searching(held, id, out, ids, deep, seen, edge, k)
      invariant Explored(held, ids, seen, k)
      decreases |all| - k
    {
      FoundAmong(held, id, out, ids, deep, all);
      var up := edge[0];
      assert edge == [up] + edge[1..];
      edge := edge[1..];
      seen, edge, out, ids, deep := Visit(held, id, up, seen, edge, out, ids, deep, k);
      k := k + 1;
    }
    assert k == |ids|;
    FoundIsBranch(held, id, out, ids, deep, seen);
  }

  lemma SearchBegins(held: seq<Whom>, id: Id)
    requires Distinct(held)
    ensures Searching(held, id, [], [id], [0], {id}, [id], 0) && Explored(held, [id], {id}, 0)
  {
    assert Up(NotesOf(held), id, 0) == Some(id);
  }

  lemma FoundAmong(held: seq<Whom>, id: Id, out: seq<Whom>, ids: seq<Id>, deep: seq<nat>, all: set<Id>)
    requires Distinct(held) && Found(held, id, out, ids, deep) && all == Ids(held) + {id}
    ensures 0 < |ids| <= |all|
  {
    forall x | x in ids
      ensures x in all
    {
      var i :| 0 <= i < |ids| && ids[i] == x;
      if i > 0 {
        assert out[i - 1] in held;
      }
    }
    DistinctFit(ids, all);
  }

  /** A finished search holds the branch and nothing else, nearest first. */
  lemma FoundIsBranch(held: seq<Whom>, id: Id, out: seq<Whom>, ids: seq<Id>, deep: seq<nat>, seen: set<Id>)
    requires Distinct(held) && Found(held, id, out, ids, deep)
    requires seen == (set x | x in ids) && Explored(held, ids, seen, |ids|)
    ensures forall w :: w in out <==> w in held && w.id != id && Below(NotesOf(held), w.id, id)
    ensures forall i, j, n: nat, m: nat :: 0 <= i < j < |out|
              && Distance(NotesOf(held), out[i].id, id, n) && Distance(NotesOf(held), out[j].id, id, m)
              ==> n <= m
    ensures forall i, j :: 0 <= i < j < |out| ==> out[i].id != out[j].id
    ensures forall i, j :: 0 <= i < j < |out| && out[i].parent == out[j].parent ==>
              Before(out[i].id, out[j].id)
  {
    assert ids[..|ids|] == ids;
    forall i, j | 0 <= i < j < |out|
      ensures out[i].id != out[j].id
    {
      assert ids[i + 1] != ids[j + 1];
    }
    forall w | w in held && w.id != id && Below(NotesOf(held), w.id, id)
      ensures w in out
    {
      var n: nat :| Up(NotesOf(held), w.id, n) == Some(id);
      AllFound(held, id, seen, w.id, n);
      var i :| 0 <= i < |ids| && ids[i] == w.id;
      SameWhom(held, w, out[i - 1]);
    }
    forall w | w in out
      ensures w in held && w.id != id && Below(NotesOf(held), w.id, id)
    {
      var i :| 0 <= i < |out| && out[i] == w;
      assert ids[i + 1] == w.id && ids[0] == id;
      assert Distance(NotesOf(held), ids[i + 1], id, deep[i + 1]);
    }
    forall i, j, n: nat, m: nat | 0 <= i < j < |out|
        && Distance(NotesOf(held), out[i].id, id, n) && Distance(NotesOf(held), out[j].id, id, m)
      ensures n <= m
    {
      DistanceUnique(NotesOf(held), ids[i + 1], id, n, deep[i + 1]);
      DistanceUnique(NotesOf(held), ids[j + 1], id, m, deep[j + 1]);
    }
  }

  /** A set that holds `id` and everybody born to one of its own holds everything below `id`. */
  lemma {:induction false} AllFound(held: seq<Whom>, id: Id, seen: set<Id>, x: Id, n: nat)
    requires Distinct(held) && id in seen
    requires forall w :: w in held && w.parent.Some? && w.parent.value in seen ==> w.id in seen
    requires Up(NotesOf(held), x, n) == Some(id)
    ensures x in seen
    decreases n
  {
    if n > 0 {
      AllFound(held, id, seen, NotesOf(held)[x], n - 1);
      var i :| 0 <= i < |held| && held[i].parent.Some? && held[i].id == x;
      assert held[i] in held;
    }
  }
}
