/** The walks `src/directory.rs` makes over the parent notes: up to a root, up counting, and down
    for the tallest branch. Each is bounded, so each answers on notes that form a ring too; what
    the bound costs is said exactly. */
module Walks {
  import opened Options
  import opened Chains

  const MAX_DEPTH := 8

  // ---- depth_of ----------------------------------------------------------------------------

  /** The notes above `x`, counted no further than `cap`. */
  function Counted(notes: Notes, x: Id, cap: nat): nat
    decreases cap
  {
    if cap == 0 || x !in notes then 0 else 1 + Counted(notes, notes[x], cap - 1)
  }

  method DepthOf(notes: Notes, me: Id) returns (depth: nat)
    ensures depth == Counted(notes, me, MAX_DEPTH)
  {
    depth := 0;
    var above := if me in notes then Some(notes[me]) else None;
    ghost var at := me;
    while above.Some?
      invariant depth < MAX_DEPTH
      invariant above == if at in notes then Some(notes[at]) else None
      invariant depth + Counted(notes, at, MAX_DEPTH - depth) == Counted(notes, me, MAX_DEPTH)
      decreases MAX_DEPTH - depth
    {
      depth := depth + 1;
      at := above.value;
      if depth >= MAX_DEPTH {
        break;
      }
      above := if above.value in notes then Some(notes[above.value]) else None;
    }
  }

  /** The count is the true number of ancestors up to the cap, and the cap for anything deeper and
      for an id caught in a ring. */
  lemma {:induction false} CountedIsDepth(notes: Notes, x: Id, cap: nat)
    ensures forall d: nat :: HasDepth(notes, x, d) ==> Counted(notes, x, cap) == Min(d, cap)
    ensures !Ends(notes, x) ==> Counted(notes, x, cap) == cap
    decreases cap
  {
    if x !in notes {
      assert HasDepth(notes, x, 0);
      forall d: nat | HasDepth(notes, x, d)
        ensures d == 0
      {
        DepthUnique(notes, x, d, 0);
      }
    } else if cap > 0 {
      CountedIsDepth(notes, notes[x], cap - 1);
      forall d: nat | HasDepth(notes, x, d)
        ensures Counted(notes, x, cap) == Min(d, cap)
      {
        DepthStep(notes, x, d - 1);
      }
      if Ends(notes, notes[x]) {
        var d: nat :| HasDepth(notes, notes[x], d);
        DepthStep(notes, x, d);
      }
    }
  }

  // ---- root_of -----------------------------------------------------------------------------

  /** Where the climb from `at` ends, given the ids met on the way: at a root, at an id already met,
      or after `MAX_DEPTH + 1` notes. */
  function Climbed(notes: Notes, at: Id, seen: set<Id>): Id
    decreases MAX_DEPTH + 2 - |seen|
  {
    if at !in notes || |seen| > MAX_DEPTH + 1 || notes[at] in seen then at
    else Climbed(notes, notes[at], seen + {notes[at]})
  }

  function RootOf(notes: Notes, id: Id): Option<Id> {
    var top := Climbed(notes, id, {id});
    if top == id then None else Some(top)
  }

  method RootOfLoop(notes: Notes, id: Id) returns (top: Option<Id>)
    ensures top == RootOf(notes, id)
  {
    var seen := {id};
    top := None;
    var current := id;
    while current in notes
      invariant current in seen && id in seen
      invariant top == if current == id then None else Some(current)
      invariant Climbed(notes, current, seen) == Climbed(notes, id, {id})
      decreases MAX_DEPTH + 2 - |seen|
    {
      var up := notes[current];
      if |seen| > MAX_DEPTH + 1 || up in seen {
        break;
      }
      seen := seen + {up};
      current := up;
      top := Some(up);
    }
  }

  /** The ids a walk from `x` meets in its first `n` notes, `x` first. */
  ghost function Met(notes: Notes, x: Id, n: nat): (ids: set<Id>)
    requires Up(notes, x, n).Some?
    decreases n
  {
    UpShorter(notes, x, if n == 0 then 0 else n - 1, n);
    if n == 0 then {x} else Met(notes, x, n - 1) + {Up(notes, x, n).value}
  }

  lemma {:induction false} MetHolds(notes: Notes, x: Id, d: nat, n: nat, m: nat)
    requires HasDepth(notes, x, d) && n <= d
    ensures Up(notes, x, n).Some?
    ensures |Met(notes, x, n)| == n + 1
    ensures m <= n ==> Up(notes, x, m).Some? && Up(notes, x, m).value in Met(notes, x, n)
    ensures n < m <= d ==> Up(notes, x, m).Some? && Up(notes, x, m).value !in Met(notes, x, n)
    decreases n
  {
    DepthAbove(notes, x, d, n);
    DepthAbove(notes, x, d, if m <= d then m else d);
    if n > 0 {
      MetHolds(notes, x, d, n - 1, m);
      MetHolds(notes, x, d, n - 1, n);
      if n < m <= d {
        NoRepeat(notes, x, d, n, m);
      }
    } else if 0 < m <= d {
      NoRepeat(notes, x, d, 0, m);
    }
  }

  lemma {:induction false} ClimbedFrom(notes: Notes, x: Id, d: nat, n: nat)
    requires HasDepth(notes, x, d) && n <= d && n <= MAX_DEPTH + 1
    ensures Up(notes, x, n).Some?
    ensures Some(Climbed(notes, Up(notes, x, n).value, Met(notes, x, n)))
         == Up(notes, x, Min(d, MAX_DEPTH + 1))
    decreases MAX_DEPTH + 1 - n
  {
    MetHolds(notes, x, d, n, n);
    if n < d {
      UpAdds(notes, x, n, 1);
      MetHolds(notes, x, d, n, n + 1);
      if n < MAX_DEPTH + 1 {
        ClimbedFrom(notes, x, d, n + 1);
      }
    } else {
      DepthAbove(notes, x, d, n);
    }
  }

  /** `root_of` names the id `min(depth, 9)` notes up, and nobody for a root. */
  lemma RootOfClimbs(notes: Notes, x: Id, d: nat)
    requires HasDepth(notes, x, d)
    ensures RootOf(notes, x) == if d == 0 then None else Up(notes, x, Min(d, MAX_DEPTH + 1))
  {
    ClimbedFrom(notes, x, d, 0);
    if d > 0 {
      NoRepeat(notes, x, d, 0, Min(d, MAX_DEPTH + 1));
    }
  }

  /** So it names the true top of a branch exactly when `x` has at most nine ancestors. */
  lemma RootOfIsTop(notes: Notes, x: Id, d: nat)
    requires HasDepth(notes, x, d) && d > 0
    ensures RootOf(notes, x).Some? && RootOf(notes, x) == Up(notes, x, Min(d, MAX_DEPTH + 1))
    ensures RootOf(notes, x).value !in notes <==> d <= MAX_DEPTH + 1
  {
    RootOfClimbs(notes, x, d);
    DepthAbove(notes, x, d, Min(d, MAX_DEPTH + 1));
    if d > MAX_DEPTH + 1 {
      UpShorter(notes, x, MAX_DEPTH + 1, d);
    }
  }

  /** On a ring the climb still ends, at somebody the notes put above `at`. */
  lemma {:induction false} ClimbedIsAbove(notes: Notes, at: Id, seen: set<Id>) returns (n: nat)
    ensures n <= if |seen| > MAX_DEPTH + 2 then 0 else MAX_DEPTH + 2 - |seen|
    ensures Up(notes, at, n) == Some(Climbed(notes, at, seen))
    decreases MAX_DEPTH + 2 - |seen|
  {
    if at !in notes || |seen| > MAX_DEPTH + 1 || notes[at] in seen {
      n := 0;
    } else {
      var rest := ClimbedIsAbove(notes, notes[at], seen + {notes[at]});
      n := rest + 1;
    }
  }

  // ---- height_below ------------------------------------------------------------------------

  /** One listening session and the note beside its socket. */
  datatype Kin = Kin(id: Id, up: Option<Id>)

  /** The tallest branch under `id`, looked for `guard` levels down. `from` is where the search among
      `id`'s own children has got to. */
  function Deepest(kin: seq<Kin>, id: Id, guard: nat, from: nat): (h: nat)
    requires from <= |kin|
    ensures h <= guard
    decreases guard, |kin| - from
  {
    if guard == 0 || from == |kin| then 0
    else
      var rest := Deepest(kin, id, guard, from + 1);
      if kin[from].up == Some(id) then
        var here := 1 + Deepest(kin, kin[from].id, guard - 1, 0);
        if here > rest then here else rest
      else rest
  }

  function HeightBelow(kin: seq<Kin>, id: Id): nat {
    Deepest(kin, id, MAX_DEPTH, 0)
  }

  ghost predicate DistinctKin(kin: seq<Kin>) {
    forall i, j :: 0 <= i < j < |kin| ==> kin[i].id != kin[j].id
  }

  /** The listed sessions' notes, as a map. */
  ghost function KinNotes(kin: seq<Kin>): Notes
    requires DistinctKin(kin)
  {
    map i | 0 <= i < |kin| && kin[i].up.Some? :: kin[i].id := kin[i].up.value
  }

  /** Somebody stands exactly `n` notes below `id`. */
  ghost predicate Reaches(notes: Notes, id: Id, n: nat) {
    exists x: Id :: Up(notes, x, n) == Some(id)
  }

  /** The largest `n` up to `guard` at which somebody stands below `id`. */
  ghost function Tallest(notes: Notes, id: Id, guard: nat): (h: nat)
    ensures h <= guard && (h > 0 ==> Reaches(notes, id, h))
    ensures forall n: nat :: h < n <= guard ==> !Reaches(notes, id, n)
    decreases guard
  {
    if guard == 0 then 0
    else if Reaches(notes, id, guard) then guard
    else Tallest(notes, id, guard - 1)
  }

  /** Whatever height the search reports, somebody listed stands there. */
  lemma {:induction false} DeepestIsThere(kin: seq<Kin>, id: Id, guard: nat, from: nat) returns (x: Id)
    requires DistinctKin(kin) && from <= |kin|
    ensures Up(KinNotes(kin), x, Deepest(kin, id, guard, from)) == Some(id)
    decreases guard, |kin| - from
  {
    if guard == 0 || from == |kin| {
      x := id;
    } else {
      var rest := Deepest(kin, id, guard, from + 1);
      var h := Deepest(kin, kin[from].id, guard - 1, 0);
      if kin[from].up == Some(id) && 1 + h > rest {
        x := DeepestIsThere(kin, kin[from].id, guard - 1, 0);
        OneMore(kin, from, id, x, h);
      } else {
        x := DeepestIsThere(kin, id, guard, from + 1);
      }
    }
  }

  lemma OneMore(kin: seq<Kin>, j: nat, id: Id, x: Id, n: nat)
    requires DistinctKin(kin) && j < |kin| && kin[j].up == Some(id)
    requires Up(KinNotes(kin), x, n) == Some(kin[j].id)
    ensures Up(KinNotes(kin), x, 1 + n) == Some(id)
  {
    var notes := KinNotes(kin);
    assert notes[kin[j].id] == id;
    assert Up(notes, kin[j].id, 1) == Up(notes, id, 0);
    UpAdds(notes, x, n, 1);
  }

  /** Nobody below `id`, within the guard, is missed: `x` hangs there through the listed `j`. */
  lemma {:induction false} DeepestMissesNobody(kin: seq<Kin>, id: Id, guard: nat, from: nat,
                                               j: nat, x: Id, n: nat)
    requires DistinctKin(kin) && from <= j < |kin|
    requires kin[j].up == Some(id) && n < guard && Up(KinNotes(kin), x, n) == Some(kin[j].id)
    ensures n + 1 <= Deepest(kin, id, guard, from)
    decreases guard, |kin| - from
  {
    if from < j {
      DeepestMissesNobody(kin, id, guard, from + 1, j, x, n);
    } else if n > 0 {
      var below := ListedBelow(kin, kin[j].id, x, n);
      DeepestMissesNobody(kin, kin[j].id, guard - 1, 0, below, x, n - 1);
    }
  }

  lemma ListedBelow(kin: seq<Kin>, id: Id, x: Id, n: nat) returns (j: nat)
    requires DistinctKin(kin) && n > 0 && Up(KinNotes(kin), x, n) == Some(id)
    ensures j < |kin| && kin[j].up == Some(id)
    ensures Up(KinNotes(kin), x, n - 1) == Some(kin[j].id)
  {
    var notes := KinNotes(kin);
    UpShorter(notes, x, n - 1, n);
    UpAdds(notes, x, n - 1, 1);
    var y := Up(notes, x, n - 1).value;
    assert Up(notes, y, 1) == Some(notes[y]);
    j :| 0 <= j < |kin| && kin[j].up.Some? && kin[j].id == y;
  }

  /** The recursive search finds the height of the branch, counted no further than the guard. */
  lemma DeepestIsTallest(kin: seq<Kin>, id: Id, guard: nat)
    requires DistinctKin(kin)
    ensures Deepest(kin, id, guard, 0) == Tallest(KinNotes(kin), id, guard)
  {
    var x := DeepestIsThere(kin, id, guard, 0);
    assert Reaches(KinNotes(kin), id, Deepest(kin, id, guard, 0));
    var h := Tallest(KinNotes(kin), id, guard);
    if h > 0 {
      var y :| Up(KinNotes(kin), y, h) == Some(id);
      var j := ListedBelow(kin, id, y, h);
      DeepestMissesNobody(kin, id, guard, 0, j, y, h - 1);
    }
  }
}
