/** The whole listing as a tree: each session with how many of the listed stand above it, depth
    first from the roots and children in id order, and whoever a ring swallowed at the end. */
module Tiered {
  import opened Options
  import opened Chains
  import opened Policy
  import opened Roster
  import opened Sets

  datatype Line = Line(whom: Whom, deep: nat)

  /** The parent notes that name somebody in the listing. */
  ghost function Inside(held: seq<Whom>): Notes
    requires Distinct(held)
  {
    map i | 0 <= i < |held| && held[i].parent.Some? && held[i].parent.value in Ids(held)
      :: held[i].id := held[i].parent.value
  }

  lemma InsideOf(held: seq<Whom>, w: Whom)
    requires Distinct(held) && w in held
    ensures w.id in Inside(held) <==> w.parent.Some? && w.parent.value in Ids(held)
    ensures w.id in Inside(held) ==> Inside(held)[w.id] == w.parent.value
  {
    var i :| 0 <= i < |held| && held[i] == w;
  }

  lemma WhoIs(held: seq<Whom>, x: Id) returns (w: Whom)
    requires Distinct(held) && x in Ids(held)
    ensures w in held && w.id == x
  {
    w :| w in held && w.id == x;
  }

  ghost function Listed(out: seq<Line>): set<Id> {
    set l | l in out :: l.whom.id
  }

  /** Neither answers to anybody in the listing, or both answer to the same one. */
  ghost predicate SameUp(notes: Notes, a: Id, b: Id) {
    if a in notes then b in notes && notes[a] == notes[b] else b !in notes
  }

  /** `later` may follow `one`: somebody else, not above it, and after it among siblings. */
  ghost predicate Follows(notes: Notes, one: Line, later: Line) {
    && one.whom.id != later.whom.id
    && !Below(notes, one.whom.id, later.whom.id)
    && (SameUp(notes, one.whom.id, later.whom.id) ==> Before(one.whom.id, later.whom.id))
  }

  ghost predicate IsUnder(notes: Notes, line: Line, top: Line) {
    Below(notes, line.whom.id, top.whom.id)
  }

  /** Lines that read as a tree: true depths, nobody twice, nobody above an earlier line, siblings in
      id order, and every subtree one run that starts at its own line. */
  ghost predicate Laid(held: seq<Whom>, out: seq<Line>)
    requires Distinct(held)
  {
    var notes := Inside(held);
    && (forall i :: 0 <= i < |out| ==> out[i].whom in held && HasDepth(notes, out[i].whom.id, out[i].deep))
    && (forall i, j :: 0 <= i < j < |out| ==> Follows(notes, out[i], out[j]))
    && (forall i, j, k :: 0 <= i < j < k < |out| && IsUnder(notes, out[k], out[i]) ==>
          IsUnder(notes, out[j], out[i]))
  }

  /** Sessions at one depth, in id order. */
  ghost predicate Heads(held: seq<Whom>, heads: seq<Whom>, d: nat)
    requires Distinct(held)
  {
    && InOrder(heads)
    && forall h :: h in heads ==> h in held && HasDepth(Inside(held), h.id, d)
  }

  ghost predicate UnderOneOf(notes: Notes, x: Id, heads: seq<Whom>) {
    exists h :: h in heads && Below(notes, x, h.id)
  }

  /** The lines of everybody under one of `heads`. */
  ghost predicate Covers(held: seq<Whom>, heads: seq<Whom>, lines: seq<Line>)
    requires Distinct(held)
  {
    && Laid(held, lines)
    && forall x :: x in Listed(lines) <==> x in Ids(held) && UnderOneOf(Inside(held), x, heads)
  }

  /** The lines of `them` and everybody under it. */
  ghost predicate Subtree(held: seq<Whom>, them: Whom, lines: seq<Line>)
    requires Distinct(held)
  {
    && Laid(held, lines)
    && lines != [] && lines[0].whom == them
    && forall x :: x in Listed(lines) <==> x in Ids(held) && Below(Inside(held), x, them.id)
  }

  // ---- One subtree after another -----------------------------------------------------------

  /** Under two different heads nobody stands above anybody of the other, and only the heads
      themselves can answer to the same one. */
  lemma HeadsApart(held: seq<Whom>, a: Whom, b: Whom, d: nat, x: Id, y: Id)
    requires Distinct(held) && a in held && b in held && a.id != b.id
    requires HasDepth(Inside(held), a.id, d) && HasDepth(Inside(held), b.id, d)
    requires Below(Inside(held), x, a.id) && Below(Inside(held), y, b.id)
    ensures x != y && !Below(Inside(held), x, y) && !Below(Inside(held), y, x)
    ensures SameUp(Inside(held), x, y) ==> x == a.id && y == b.id
  {
    var notes := Inside(held);
    if Below(notes, x, b.id) {
      BelowApart(notes, x, a.id, b.id, d);
    }
    if Below(notes, y, a.id) {
      BelowApart(notes, y, a.id, b.id, d);
    }
    if Below(notes, x, y) {
      BelowAdds(notes, x, y, b.id);
    }
    if Below(notes, y, x) {
      BelowAdds(notes, y, x, a.id);
    }
    BelowStep(notes, x, a.id);
    BelowStep(notes, y, b.id);
    BelowStep(notes, x, b.id);
    BelowStep(notes, y, a.id);
  }

  lemma AtIndex(lines: seq<Line>, i: nat)
    requires i < |lines|
    ensures lines[i].whom.id in Listed(lines)
  {
    assert lines[i] in lines;
  }

  /** Every line of one head's subtree may follow every line of the heads before it. */
  lemma PairApart(held: seq<Whom>, heads: seq<Whom>, at: nat, d: nat, lines: seq<Line>, run: seq<Line>,
                  i: nat, j: nat)
    requires Distinct(held) && Heads(held, heads, d) && at < |heads|
    requires Covers(held, heads[..at], lines) && Subtree(held, heads[at], run)
    requires i < |lines| && j < |run|
    ensures Follows(Inside(held), lines[i], run[j]) && !IsUnder(Inside(held), run[j], lines[i])
  {
    AtIndex(lines, i);
    AtIndex(run, j);
    var x, y := lines[i].whom.id, run[j].whom.id;
    var h :| h in heads[..at] && Below(Inside(held), x, h.id);
    var k :| 0 <= k < at && heads[k] == h;
    BeforeTotal(heads[k].id, heads[k].id);
    HeadsApart(held, heads[k], heads[at], d, x, y);
  }

  lemma LaidAppends(held: seq<Whom>, lines: seq<Line>, run: seq<Line>)
    requires Distinct(held) && Laid(held, lines) && Laid(held, run)
    requires forall i, j :: 0 <= i < |lines| && 0 <= j < |run| ==>
               Follows(Inside(held), lines[i], run[j]) && !IsUnder(Inside(held), run[j], lines[i])
    ensures Laid(held, lines + run)
  {
    hide HasDepth, Follows, IsUnder, Distinct;
    var both, notes, n := lines + run, Inside(held), |lines|;
    forall i, j, k | 0 <= i < j < k < |both| && IsUnder(notes, both[k], both[i])
      ensures IsUnder(notes, both[j], both[i])
    {
      if i >= n {
        assert both[i] == run[i - n] && both[j] == run[j - n] && both[k] == run[k - n];
      }
    }
    forall i, j | 0 <= i < j < |both|
      ensures Follows(notes, both[i], both[j])
    {
      if i >= n {
        assert both[i] == run[i - n] && both[j] == run[j - n];
      } else {
        assert j >= n ==> both[j] == run[j - n];
      }
    }
  }

  lemma NextHead(held: seq<Whom>, heads: seq<Whom>, at: nat, d: nat, lines: seq<Line>, run: seq<Line>)
    requires Distinct(held) && Heads(held, heads, d) && at < |heads|
    requires Covers(held, heads[..at], lines) && Subtree(held, heads[at], run)
    ensures Covers(held, heads[..at + 1], lines + run)
    ensures Listed(lines + run) == Listed(lines) + Listed(run) && Listed(run) <= Ids(held)
  {
    forall i, j | 0 <= i < |lines| && 0 <= j < |run|
      ensures Follows(Inside(held), lines[i], run[j]) && !IsUnder(Inside(held), run[j], lines[i])
    {
      PairApart(held, heads, at, d, lines, run, i, j);
    }
    LaidAppends(held, lines, run);
    hide Laid, Below, HasDepth, Distinct, Before;
    assert Listed(lines + run) == Listed(lines) + Listed(run);
    assert heads[..at + 1] == heads[..at] + [heads[at]];
  }

  // ---- One line above the subtrees of its children --------------------------------------------

  lemma KidsAreHeads(held: seq<Whom>, them: Whom, deep: nat)
    requires Distinct(held) && them in held && HasDepth(Inside(held), them.id, deep)
    ensures Heads(held, BornTo(held, them.id), deep + 1)
  {
    SortedInOrder(held, (w: Whom) => w.parent == Some(them.id));
    forall h | h in BornTo(held, them.id)
      ensures h in held && HasDepth(Inside(held), h.id, deep + 1)
    {
      InsideOf(held, h);
      DepthStep(Inside(held), h.id, deep);
    }
  }

  /** Everybody under `them` is `them`, or under one of its children. */
  lemma UnderSplits(held: seq<Whom>, them: Whom, x: Id)
    requires Distinct(held) && them in held
    ensures Below(Inside(held), x, them.id)
       <==> x == them.id || UnderOneOf(Inside(held), x, BornTo(held, them.id))
  {
    hide Before;
    var notes := Inside(held);
    BelowStep(notes, x, x);
    if Below(notes, x, them.id) && x != them.id {
      var z := BelowLast(notes, x, them.id);
      BornThere(held, them, z);
    } else if x != them.id && UnderOneOf(notes, x, BornTo(held, them.id)) {
      var h :| h in BornTo(held, them.id) && Below(notes, x, h.id);
      KidBelow(held, them, h);
      BelowAdds(notes, x, h.id, them.id);
    }
  }

  lemma BornThere(held: seq<Whom>, them: Whom, z: Id)
    requires Distinct(held) && z in Inside(held) && Inside(held)[z] == them.id
    ensures exists h :: h in BornTo(held, them.id) && h.id == z
  {
    var i :| 0 <= i < |held| && held[i].id == z && held[i].parent == Some(them.id);
    assert held[i] in BornTo(held, them.id);
  }

  lemma KidBelow(held: seq<Whom>, them: Whom, h: Whom)
    requires Distinct(held) && them in held && h in BornTo(held, them.id)
    ensures h in held && h.id in Inside(held) && Inside(held)[h.id] == them.id
    ensures Below(Inside(held), h.id, them.id)
  {
    InsideOf(held, h);
    BelowStep(Inside(held), them.id, them.id);
    BelowStep(Inside(held), h.id, them.id);
  }

  /** A line of a child's subtree, seen from the line above. */
  lemma KidLine(held: seq<Whom>, them: Whom, deep: nat, lines: seq<Line>, i: nat)
    requires Distinct(held) && them in held && HasDepth(Inside(held), them.id, deep)
    requires Covers(held, BornTo(held, them.id), lines) && i < |lines|
    ensures var x := lines[i].whom.id;
            && x != them.id && Below(Inside(held), x, them.id) && !Below(Inside(held), them.id, x)
            && !SameUp(Inside(held), them.id, x)
  {
    var notes, x := Inside(held), lines[i].whom.id;
    AtIndex(lines, i);
    KidsAreHeads(held, them, deep);
    UnderSplits(held, them, x);
    var h :| h in BornTo(held, them.id) && Below(notes, x, h.id);
    BelowIsDeeper(notes, x, h.id, lines[i].deep, deep + 1);
    if x == them.id {
      DepthUnique(notes, x, deep, lines[i].deep);
    }
    if Below(notes, them.id, x) {
      BelowIsDeeper(notes, them.id, x, deep, lines[i].deep);
    }
    if SameUp(notes, them.id, x) {
      if x in notes {
        DepthStep(notes, x, lines[i].deep - 1);
        DepthStep(notes, them.id, lines[i].deep - 1);
        DepthUnique(notes, them.id, deep, lines[i].deep);
      }
    }
  }

  lemma Topped(held: seq<Whom>, them: Whom, deep: nat, lines: seq<Line>)
    requires Distinct(held) && them in held && HasDepth(Inside(held), them.id, deep)
    requires Covers(held, BornTo(held, them.id), lines)
    ensures Subtree(held, them, [Line(them, deep)] + lines)
  {
    var notes, all := Inside(held), [Line(them, deep)] + lines;
    forall i | 0 <= i < |lines|
      ensures Follows(notes, Line(them, deep), lines[i]) && IsUnder(notes, lines[i], Line(them, deep))
    {
      KidLine(held, them, deep, lines, i);
    }
    ToppedLaid(held, them, deep, lines);
    assert Listed(all) == {them.id} + Listed(lines);
    forall x
      ensures x in Listed(all) <==> x in Ids(held) && Below(notes, x, them.id)
    {
      UnderSplits(held, them, x);
    }
  }

  lemma ToppedLaid(held: seq<Whom>, them: Whom, deep: nat, lines: seq<Line>)
    requires Distinct(held) && them in held && HasDepth(Inside(held), them.id, deep)
    requires Laid(held, lines)
    requires forall i :: 0 <= i < |lines| ==>
               Follows(Inside(held), Line(them, deep), lines[i])
               && IsUnder(Inside(held), lines[i], Line(them, deep))
    ensures Laid(held, [Line(them, deep)] + lines)
  {
    hide HasDepth, Follows, IsUnder, Distinct;
    var all := [Line(them, deep)] + lines;
    assert forall i :: 0 < i < |all| ==> all[i] == lines[i - 1];
  }

  // ---- descend and tiered ------------------------------------------------------------------

  /** `them` and everybody under it, each a level deeper than the one above it; nothing when `them`
      has been seen. The lines added are returned on their own for the callers' proofs. */
  method Descend(held: seq<Whom>, them: Whom, deep: nat, seen0: set<Id>, out0: seq<Line>)
    returns (seen: set<Id>, out: seq<Line>, ghost run: seq<Line>)
    requires Distinct(held) && them in held && HasDepth(Inside(held), them.id, deep)
    requires seen0 <= Ids(held)
    requires them.id !in seen0 ==> forall x :: x in seen0 ==> !Below(Inside(held), x, them.id)
    ensures them.id in seen0 ==> seen == seen0 && out == out0
    ensures them.id !in seen0 ==>
              out == out0 + run && seen == seen0 + Listed(run) && Subtree(held, them, run)
    decreases |Ids(held) - seen0|
  {
    hide *;
    IdListed(held, them);
    ListedTop(them, deep, []);
    seen, out, run := seen0, out0, [];
    if them.id in seen {
      return;
    }
    seen := seen + {them.id};
    out := out + [Line(them, deep)];
    var kids := BornTo(held, them.id);
    ghost var lines: seq<Line> := [];
    CoversNobody(held, kids);
    for at := 0 to |kids|
      invariant out == out0 + [Line(them, deep)] + lines
      invariant seen == seen0 + {them.id} + Listed(lines) && seen <= Ids(held)
      invariant Covers(held, kids[..at], lines)
    {
      KidUnseen(held, them, deep, seen0, kids, at, lines);
      Shrinks(Ids(held), seen0, seen, them.id);
      ghost var more;
      seen, out, more := Descend(held, kids[at], deep + 1, seen, out);
      KidsAreHeads(held, them, deep);
      NextHead(held, kids, at, deep + 1, lines, more);
      lines := lines + more;
    }
    assert kids[..|kids|] == kids;
    Topped(held, them, deep, lines);
    run := [Line(them, deep)] + lines;
    ListedTop(them, deep, lines);
  }

  lemma IdListed(held: seq<Whom>, them: Whom)
    requires them in held
    ensures them.id in Ids(held)
  {}

  lemma ListedTop(them: Whom, deep: nat, lines: seq<Line>)
    ensures Listed([Line(them, deep)] + lines) == {them.id} + Listed(lines)
    ensures Listed([]) == {}
  {
  }

  lemma Shrinks<T>(all: set<T>, before: set<T>, after: set<T>, x: T)
    requires x in all && x !in before && before + {x} <= after
    ensures |all - after| < |all - before|
  {
    SubsetSmaller(all - after, all - before);
  }

  lemma CoversNobody(held: seq<Whom>, heads: seq<Whom>)
    requires Distinct(held)
    ensures Covers(held, heads[..0], [])
  {
  }

  lemma SubsetSmaller<T>(a: set<T>, b: set<T>)
    ensures a < b ==> |a| < |b|
  {
    if a < b {
      var x :| x in b && x !in a;
      FewerInAll(a, b - {x});
    }
  }

  /** No child's branch has been touched when its turn comes. */
  lemma KidUnseen(held: seq<Whom>, them: Whom, deep: nat, seen0: set<Id>, kids: seq<Whom>, at: nat,
                  lines: seq<Line>)
    requires Distinct(held) && them in held && HasDepth(Inside(held), them.id, deep)
    requires forall x :: x in seen0 ==> !Below(Inside(held), x, them.id)
    requires kids == BornTo(held, them.id) && at < |kids| && Covers(held, kids[..at], lines)
    ensures forall x :: x in seen0 + {them.id} + Listed(lines) ==> !Below(Inside(held), x, kids[at].id)
    ensures kids[at].id !in seen0 + {them.id} + Listed(lines)
    ensures kids[at] in held && HasDepth(Inside(held), kids[at].id, deep + 1)
  {
    hide Laid, HasDepth, Distinct, Before;
    var kid := kids[at];
    KidsAreHeads(held, them, deep);
    assert kid in kids;
    KidBelow(held, them, kid);
    BelowStep(Inside(held), kid.id, kid.id);
    BelowStep(Inside(held), them.id, them.id);
    forall x | x in seen0 + {them.id} + Listed(lines)
      ensures !Below(Inside(held), x, kid.id)
    {
      if Below(Inside(held), x, kid.id) {
        BelowAdds(Inside(held), x, kid.id, them.id);
        if x in Listed(lines) {
          KidsBranchesApart(held, kids, at, deep + 1, x);
        } else {
          BelowIsDeeper(Inside(held), them.id, kid.id, deep, deep + 1);
        }
      }
    }
  }

  lemma KidsBranchesApart(held: seq<Whom>, heads: seq<Whom>, at: nat, d: nat, x: Id)
    requires Distinct(held) && Heads(held, heads, d) && at < |heads|
    requires UnderOneOf(Inside(held), x, heads[..at])
    ensures !Below(Inside(held), x, heads[at].id)
  {
    var h :| h in heads[..at] && Below(Inside(held), x, h.id);
    var k :| 0 <= k < at && heads[k] == h;
    BeforeTotal(heads[at].id, heads[at].id);
    assert heads[at] in heads && heads[k] in heads;
    if Below(Inside(held), x, heads[at].id) {
      BelowApart(Inside(held), x, h.id, heads[at].id, d);
    }
  }

  predicate IsRoot(held: seq<Whom>, w: Whom) {
    w.parent.None? || w.parent.value !in Ids(held)
  }

  /** The sessions a ring swallowed, at the root of the listing and in its order. */
  ghost function Caught(held: seq<Whom>, whole: seq<Whom>): seq<Line>
    requires Distinct(whole)
  {
    if held == [] then []
    else if Ends(Inside(whole), held[0].id) then Caught(held[1..], whole)
    else [Line(held[0], 0)] + Caught(held[1..], whole)
  }

  lemma RootsAreHeads(held: seq<Whom>)
    requires Distinct(held)
    ensures Heads(held, Sorted(held, (w: Whom) => IsRoot(held, w)), 0)
  {
    SortedInOrder(held, (w: Whom) => IsRoot(held, w));
    forall h | h in Sorted(held, (w: Whom) => IsRoot(held, w))
      ensures HasDepth(Inside(held), h.id, 0)
    {
      InsideOf(held, h);
    }
  }

  /** Hanging under a root of the listing is having a walk up it that stops. */
  lemma EndsAtRoot(held: seq<Whom>, x: Id)
    requires Distinct(held) && x in Ids(held)
    ensures Ends(Inside(held), x)
       <==> UnderOneOf(Inside(held), x, Sorted(held, (w: Whom) => IsRoot(held, w)))
  {
    var notes, roots := Inside(held), Sorted(held, (w: Whom) => IsRoot(held, w));
    if Ends(notes, x) {
      var d: nat :| HasDepth(notes, x, d);
      WalkStaysListed(held, x, d);
      var w := WhoIs(held, Up(notes, x, d).value);
      InsideOf(held, w);
      assert w in roots && Below(notes, x, w.id);
    }
    if UnderOneOf(notes, x, roots) {
      var h :| h in roots && Below(notes, x, h.id);
      RootsAreHeads(held);
      var n: nat :| Up(notes, x, n) == Some(h.id);
      assert HasDepth(notes, x, n);
    }
  }

  lemma {:induction false} WalkStaysListed(held: seq<Whom>, x: Id, n: nat)
    requires Distinct(held) && x in Ids(held) && Up(Inside(held), x, n).Some?
    ensures Up(Inside(held), x, n).value in Ids(held)
    decreases n
  {
    if n > 0 {
      WalkStaysListed(held, Inside(held)[x], n - 1);
    }
  }

  lemma RootUnseen(held: seq<Whom>, roots: seq<Whom>, at: nat, lines: seq<Line>)
    requires Distinct(held) && roots == Sorted(held, (w: Whom) => IsRoot(held, w)) && at < |roots|
    requires Covers(held, roots[..at], lines)
    ensures forall x :: x in Listed(lines) ==> !Below(Inside(held), x, roots[at].id)
    ensures roots[at].id !in Listed(lines) && Listed(lines) <= Ids(held)
    ensures roots[at] in held && HasDepth(Inside(held), roots[at].id, 0) && Heads(held, roots, 0)
  {
    RootsAreHeads(held);
    assert roots[at] in roots;
    forall x | x in Listed(lines)
      ensures !Below(Inside(held), x, roots[at].id)
    {
      KidsBranchesApart(held, roots, at, 0, x);
    }
    BelowStep(Inside(held), roots[at].id, roots[at].id);
  }

  lemma TiersAre(held: seq<Whom>, tree: seq<Line>, out: seq<Line>)
    requires Distinct(held) && Laid(held, tree) && out == tree + Caught(held, held)
    requires Listed(tree) == set w | w in held && Ends(Inside(held), w.id) :: w.id
    ensures Tiers(held, out, |tree|)
  {
    assert out[..|tree|] == tree && out[|tree|..] == Caught(held, held);
  }

  lemma NobodyListed()
    ensures Listed([]) == {}
  {}

  lemma CoveredAll(held: seq<Whom>, roots: seq<Whom>, out: seq<Line>)
    requires Distinct(held) && roots == Sorted(held, (w: Whom) => IsRoot(held, w))
    requires Covers(held, roots, out)
    ensures Laid(held, out)
    ensures Listed(out) == set w | w in held && Ends(Inside(held), w.id) :: w.id
  {
    forall x | x in Ids(held)
      ensures x in Listed(out) <==> Ends(Inside(held), x)
    {
      EndsAtRoot(held, x);
    }
  }

  lemma NobodyCaught(held: seq<Whom>)
    requires Distinct(held)
    ensures Caught(held[|held|..], held) == [] && Ids(held[..0]) == {}
  {}

  lemma NextCaught(held: seq<Whom>, at: nat, tree: set<Id>)
    requires Distinct(held) && at < |held|
    requires tree == set w | w in held && Ends(Inside(held), w.id) :: w.id
    ensures Ids(held[..at + 1]) == Ids(held[..at]) + {held[at].id}
    ensures held[at].id in tree + Ids(held[..at]) <==> Ends(Inside(held), held[at].id)
    ensures Caught(held[at..], held)
         == (if Ends(Inside(held), held[at].id) then [] else [Line(held[at], 0)]) + Caught(held[at + 1..], held)
  {
    hide Ends, Inside;
    NextIds(held, at);
    assert held[at..][1..] == held[at + 1..];
    assert held[at] in held;
  }

  lemma NextIds(held: seq<Whom>, at: nat)
    requires Distinct(held) && at < |held|
    ensures Ids(held[..at + 1]) == Ids(held[..at]) + {held[at].id}
    ensures held[at].id !in Ids(held[..at])
    ensures forall w :: w in held && w.id == held[at].id ==> w == held[at]
  {
    assert held[..at + 1] == held[..at] + [held[at]];
  }

  /** The whole listing. Its first lines are everybody who hangs under a root of it, laid out as a
      tree; the rest are whoever a ring swallowed. */
  method TieredList(held: seq<Whom>) returns (out: seq<Line>)
    requires Distinct(held)
    ensures exists n: nat :: Tiers(held, out, n)
  {
    hide *;
    var roots := Sorted(held, (w: Whom) => IsRoot(held, w));
    var seen: set<Id> := {};
    out := [];
    CoversNobody(held, roots);
    NobodyListed();
    for at := 0 to |roots|
      invariant seen == Listed(out) && Covers(held, roots[..at], out)
    {
      RootUnseen(held, roots, at, out);
      ghost var was := out;
      ghost var run;
      seen, out, run := Descend(held, roots[at], 0, seen, out);
      NextHead(held, roots, at, 0, was, run);
    }
    assert roots[..|roots|] == roots;
    CoveredAll(held, roots, out);
    ghost var tree := out;
    assert held[0..] == held;
    NobodyCaught(held);
    for at := 0 to |held|
      invariant seen == Listed(tree) + Ids(held[..at])
      invariant out + Caught(held[at..], held) == tree + Caught(held, held)
    {
      NextCaught(held, at, Listed(tree));
      if held[at].id !in seen {
        out := out + [Line(held[at], 0)];
      }
      seen := seen + {held[at].id};
    }
    assert out + [] == out;
    TiersAre(held, tree, out);
  }

  /** What `TieredList` promises of its lines. */
  ghost predicate Tiers(held: seq<Whom>, out: seq<Line>, n: nat)
    requires Distinct(held)
  {
    && n <= |out| && Laid(held, out[..n])
    && Listed(out[..n]) == (set w | w in held && Ends(Inside(held), w.id) :: w.id)
    && out[n..] == Caught(held, held)
  }

  /** The lines before `n` are those whose walk stops; the rest were caught by a ring and stand at
      depth zero. */
  lemma LineKind(held: seq<Whom>, out: seq<Line>, n: nat, i: nat)
    requires Distinct(held) && Tiers(held, out, n) && i < |out|
    ensures out[i].whom in held && (i < n <==> Ends(Inside(held), out[i].whom.id))
    ensures i >= n ==> out[i].deep == 0
  {
    if i < n {
      assert out[..n][i] == out[i];
    } else {
      CaughtIs(held, held);
      assert out[i] == out[n..][i - n];
    }
  }

  /** Nobody is listed twice. */
  lemma NobodyTwice(held: seq<Whom>, out: seq<Line>, n: nat, i: nat, j: nat)
    requires Distinct(held) && Tiers(held, out, n) && i < j < |out|
    ensures out[i].whom.id != out[j].whom.id
  {
    if j < n {
      assert Follows(Inside(held), out[..n][i], out[..n][j]);
    } else if i >= n {
      CaughtIs(held, held);
      assert out[i] == out[n..][i - n] && out[j] == out[n..][j - n];
    } else {
      hide Tiers, Distinct;
      LineKind(held, out, n, i);
      LineKind(held, out, n, j);
    }
  }

  /** And nobody is left out, whatever the notes say. */
  lemma NobodyLeftOut(held: seq<Whom>, out: seq<Line>, n: nat, w: Whom) returns (i: nat)
    requires Distinct(held) && Tiers(held, out, n) && w in held
    ensures i < |out| && out[i].whom == w
  {
    hide Laid;
    if Ends(Inside(held), w.id) {
      assert w.id in Listed(out[..n]);
      var l :| l in out[..n] && l.whom.id == w.id;
      i :| 0 <= i < n && out[..n][i] == l;
      LineKind(held, out, n, i);
      SameWhom(held, w, out[i].whom);
    } else {
      CaughtIs(held, held);
      var k :| 0 <= k < |out[n..]| && out[n..][k].whom == w;
      i := n + k;
    }
  }

  lemma {:induction false} CaughtIs(held: seq<Whom>, whole: seq<Whom>)
    requires Distinct(whole) && Distinct(held)
    ensures forall l :: l in Caught(held, whole) ==>
              l.deep == 0 && l.whom in held && !Ends(Inside(whole), l.whom.id)
    ensures forall w :: w in held && !Ends(Inside(whole), w.id) ==>
              exists k :: 0 <= k < |Caught(held, whole)| && Caught(held, whole)[k].whom == w
    ensures forall i, j :: 0 <= i < j < |Caught(held, whole)| ==>
              Caught(held, whole)[i].whom.id != Caught(held, whole)[j].whom.id
  {
    if held != [] {
      CaughtIs(held[1..], whole);
      var rest := Caught(held[1..], whole);
      if !Ends(Inside(whole), held[0].id) {
        var all := [Line(held[0], 0)] + rest;
        assert Caught(held, whole) == all;
        forall w | w in held && !Ends(Inside(whole), w.id)
          ensures exists k :: 0 <= k < |all| && all[k].whom == w
        {
          if w == held[0] {
            assert all[0].whom == w;
          } else {
            var k :| 0 <= k < |rest| && rest[k].whom == w;
            assert all[k + 1].whom == w;
          }
        }
        forall j | 0 < j < |all|
          ensures all[j].whom.id != held[0].id
        {
          assert all[j] in rest;
        }
      }
    }
  }

  /** The line of whoever the `j`-th answers to. */
  lemma ParentLine(held: seq<Whom>, out: seq<Line>, j: nat) returns (i: nat)
    requires Distinct(held) && Laid(held, out)
    requires Listed(out) == set w | w in held && Ends(Inside(held), w.id) :: w.id
    requires j < |out| && out[j].deep > 0
    ensures i < |out| && i != j && out[j].whom.parent == Some(out[i].whom.id)
    ensures out[i].deep + 1 == out[j].deep && Below(Inside(held), out[j].whom.id, out[i].whom.id)
  {
    var notes, x := Inside(held), out[j].whom.id;
    assert out[j].whom in held && HasDepth(notes, x, out[j].deep);
    i := ListedParent(held, out, x, out[j].deep - 1);
    assert HasDepth(notes, out[i].whom.id, out[i].deep);
    hide Laid, Distinct, Inside;
    InsideOf(held, out[j].whom);
    var up := notes[x];
    DepthStep(notes, x, out[j].deep - 1);
    BelowStep(notes, up, up);
    BelowStep(notes, x, up);
    DepthUnique(notes, up, out[i].deep, out[j].deep - 1);
  }

  lemma ListedParent(held: seq<Whom>, out: seq<Line>, x: Id, d: nat) returns (i: nat)
    requires Distinct(held) && x in Ids(held) && HasDepth(Inside(held), x, d + 1)
    requires Listed(out) == set w | w in held && Ends(Inside(held), w.id) :: w.id
    ensures i < |out| && x in Inside(held) && out[i].whom.id == Inside(held)[x]
  {
    DepthStep(Inside(held), x, d);
    var up := Inside(held)[x];
    var w := WhoIs(held, up);
    assert Ends(Inside(held), up) && up in Listed(out);
    var l :| l in out && l.whom.id == up;
    i :| 0 <= i < |out| && out[i] == l;
  }

  /** The indentation alone says whose child a line is: the nearest line above it that is one step
      less deep is its parent's, and every line between the two hangs under that parent as well. */
  lemma IndentationIsParentage(held: seq<Whom>, out: seq<Line>, j: nat) returns (i: nat)
    requires Distinct(held) && Laid(held, out)
    requires Listed(out) == set w | w in held && Ends(Inside(held), w.id) :: w.id
    requires j < |out| && out[j].deep > 0
    ensures i < j && out[j].whom.parent == Some(out[i].whom.id) && out[i].deep + 1 == out[j].deep
    ensures forall k :: i < k < j ==>
              out[k].deep >= out[j].deep && Below(Inside(held), out[k].whom.id, out[i].whom.id)
  {
    i := ParentLine(held, out, j);
    forall k | i < k < j
      ensures out[k].deep >= out[j].deep && Below(Inside(held), out[k].whom.id, out[i].whom.id)
    {
      LineBetween(held, out, i, k, j);
    }
  }

  lemma LineBetween(held: seq<Whom>, out: seq<Line>, i: nat, k: nat, j: nat)
    requires Distinct(held) && Laid(held, out) && i < k < j < |out|
    requires out[i].deep + 1 == out[j].deep && Below(Inside(held), out[j].whom.id, out[i].whom.id)
    ensures out[k].deep >= out[j].deep && Below(Inside(held), out[k].whom.id, out[i].whom.id)
  {
    var notes, x, y := Inside(held), out[k].whom.id, out[i].whom.id;
    BelowIsDeeper(notes, x, y, out[k].deep, out[i].deep);
  }
}
