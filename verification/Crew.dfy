/** Which sessions are one tree: the root each reads off the notes, and the crew it makes, at every
    point of every run. Born runs are never rewritten, and trees are joined by grafts all the same. */
module Crew {
  import opened Options
  import opened Decimal
  import opened Chains
  import opened Walks
  import opened Forest
  import opened Texts
  import opened Policy

  /** The run `id`'s branch belongs to: the walked-up root's own, or its id when it left no note. */
  function RunOf(w: World, id: Id): Option<string> {
    match RootOf(w.note, id)
    case None => None
    case Some(top) => Some(if top in w.run then w.run[top] else top)
  }

  function WhomOf(w: World, project: string, id: Id): Whom {
    Whom(project, id,
         if id in w.note then Some(w.note[id]) else None,
         if id in w.run then Some(w.run[id]) else None,
         RunOf(w, id))
  }

  /** Everyone whose tree is `me`'s. */
  function CrewOf(w: World, project: string, me: Id): set<Id> {
    set x | x in w.live && WhomOf(w, project, x).TreeRoot() == WhomOf(w, project, me).TreeRoot()
  }

  lemma LiveEnds(w: World, x: Id)
    requires Inv(w) && x in w.live
    ensures Ends(w.note, x) && Depth(w.note, x) <= MAX_DEPTH
  {
    var d: nat :| d <= MAX_DEPTH && HasDepth(w.note, x, d);
    TopIs(w.note, x, d);
  }

  ghost function TopOf(w: World, x: Id): Id
    requires Inv(w) && x in w.live
  {
    LiveEnds(w, x);
    Top(w.note, x)
  }

  // ---- One name for one tree -----------------------------------------------------------------

  /** The name a tree goes by, given its top. */
  function TreeName(w: World, top: Id): string {
    if top in w.run then w.run[top] else top
  }

  lemma {:induction false} DashesAdd(a: string, b: string)
    ensures Dashes(a + b) == Dashes(a) + Dashes(b)
  {
    if a == "" {
      assert a + b == b;
    } else {
      assert (a + b)[1..] == a[1..] + b;
      DashesAdd(a[1..], b);
    }
  }

  lemma MintedIs(id: Id, nonce: nat)
    requires nonce < Pow10(39)
    ensures |Minted(id, nonce)| == |id| + 40 && Minted(id, nonce)[..|id|] == id
    ensures Dashes(Minted(id, nonce)) == Dashes(id) + 1
  {
    PaddedLength(nonce, 39);
    NoDashes(Padded(nonce, 39));
    DashesAdd(id + "-", Padded(nonce, 39));
    DashesAdd(id, "-");
    assert "-"[1..] == "";
  }

  /** Two tops that share a name are one top. */
  lemma NamesDiffer(w: World, s: Id, t: Id)
    requires Inv(w) && s !in w.note && t !in w.note && Dashes(s) == 1 && Dashes(t) == 1
    requires TreeName(w, s) == TreeName(w, t)
    ensures s == t
  {
    if s in w.run {
      var n: nat :| n < Pow10(39) && w.run[s] == Minted(s, n);
      MintedIs(s, n);
      if t in w.run {
        var m: nat :| m < Pow10(39) && w.run[t] == Minted(t, m);
        MintedIs(t, m);
      }
    } else if t in w.run {
      var m: nat :| m < Pow10(39) && w.run[t] == Minted(t, m);
      MintedIs(t, m);
    }
  }

  /** A session's tree goes by its top's name. */
  lemma TreeNamed(w: World, project: string, x: Id)
    requires Inv(w) && x in w.live
    ensures TopOf(w, x) !in w.note && Dashes(TopOf(w, x)) == 1
    ensures WhomOf(w, project, x).TreeRoot() == TreeName(w, TopOf(w, x))
  {
    LiveEnds(w, x);
    var d := Depth(w.note, x);
    RootOfClimbs(w.note, x, d);
    if d > 0 {
      NamedAbove(w.note, x, d, TopOf(w, x));
    }
  }

  /** At every point of every run two sessions read one tree root exactly when they hang under one
      top, whatever runs they were born in. */
  lemma OneRootOneTree(w: World, project: string, x: Id, y: Id)
    requires Inv(w) && x in w.live && y in w.live
    ensures WhomOf(w, project, x).TreeRoot() == WhomOf(w, project, y).TreeRoot()
       <==> TopOf(w, x) == TopOf(w, y)
  {
    TreeNamed(w, project, x);
    TreeNamed(w, project, y);
    hide Inv, WhomOf;
    if TreeName(w, TopOf(w, x)) == TreeName(w, TopOf(w, y)) {
      NamesDiffer(w, TopOf(w, x), TopOf(w, y));
    }
  }

  /** So a crew is exactly the tree its member hangs in. */
  lemma CrewIsTheTree(w: World, project: string, me: Id)
    requires Inv(w) && me in w.live
    ensures CrewOf(w, project, me) == set x | x in w.live && TopOf(w, x) == TopOf(w, me)
  {
    hide Inv, WhomOf;
    forall x | x in w.live
      ensures x in CrewOf(w, project, me) <==> TopOf(w, x) == TopOf(w, me)
    {
      OneRootOneTree(w, project, x, me);
    }
  }

  lemma TopAfterGraft(w: World, parent: Id, child: Id, x: Id)
    requires Inv(w) && Enabled(w, Adopt(parent, child)) && x in w.live
    ensures Inv(After(w, Adopt(parent, child)))
    ensures TopOf(After(w, Adopt(parent, child)), x) == if TopOf(w, x) == child then parent else TopOf(w, x)
    ensures TopOf(w, parent) == parent && TopOf(w, child) == child
  {
    StepKeepsInv(w, Adopt(parent, child));
    AdoptGuards(w, parent, child);
    LiveEnds(w, x);
    hide Inv, Enabled;
    GraftTop(w.note, parent, child, x);
    TopIs(w.note, parent, 0);
    TopIs(w.note, child, 0);
  }

  lemma GraftTop(notes: Notes, parent: Id, child: Id, x: Id)
    requires child !in notes && parent !in notes && parent != child && Ends(notes, x)
    ensures Ends(notes[child := parent], x)
    ensures Top(notes[child := parent], x) == if Top(notes, x) == child then parent else Top(notes, x)
  {
    var d, after := Depth(notes, x), notes[child := parent];
    assert HasDepth(notes, parent, 0) && Up(notes, parent, 0) == Some(parent);
    DepthAfterHang(notes, child, parent, 0, x, d);
    TopIs(after, x, if Top(notes, x) == child then d + 1 else d);
  }

  /** A graft makes one crew of two, and leaves every other crew as it was. */
  lemma GraftJoinsCrews(w: World, project: string, parent: Id, child: Id, x: Id)
    requires Inv(w) && Enabled(w, Adopt(parent, child)) && x in w.live
    ensures var w', both := After(w, Adopt(parent, child)), CrewOf(w, project, parent) + CrewOf(w, project, child);
            CrewOf(w', project, x) == if x in both then both else CrewOf(w, project, x)
  {
    hide *;
    var w' := After(w, Adopt(parent, child));
    SameSessions(w, parent, child);
    forall y | y in w.live
      ensures Inv(w') && TopOf(w', y) == if TopOf(w, y) == child then parent else TopOf(w, y)
    {
      TopAfterGraft(w, parent, child, y);
    }
    TopAfterGraft(w, parent, child, x);
    CrewIsTheTree(w, project, parent);
    CrewIsTheTree(w, project, child);
    CrewIsTheTree(w, project, x);
    CrewIsTheTree(w', project, x);
  }

  lemma SameSessions(w: World, parent: Id, child: Id)
    requires Enabled(w, Adopt(parent, child))
    ensures After(w, Adopt(parent, child)).live == w.live && parent in w.live && child in w.live
  {}

  // ---- How two sessions stand, from both ends --------------------------------------------------

  /** At every point of every run the spawn link reads the same from both ends, and what is neither
      that nor a shared parent is kin exactly when it is one tree. */
  lemma BothEndsInARun(w: World, project: string, x: Id, y: Id)
    requires Inv(w) && x in w.live && y in w.live && x != y
    ensures var me, them := WhomOf(w, project, x), WhomOf(w, project, y);
            && (Between(me, them) == Parent <==> Between(them, me) == Child)
            && (Between(me, them) in {Parent, Child, Sibling, Relation.Kin} <==> TopOf(w, x) == TopOf(w, y))
  {
    OneRootOneTree(w, project, x, y);
    NoRingOfTwo(w, x, y);
    OneTop(w, x, y);
    OneTop(w, y, x);
    hide Inv, RunOf;
  }

  lemma NoRingOfTwo(w: World, x: Id, y: Id)
    requires Inv(w) && x in w.live
    ensures !(x in w.note && y in w.note && w.note[x] == y && w.note[y] == x)
  {
    LiveEnds(w, x);
    if x in w.note && y in w.note && w.note[x] == y && w.note[y] == x {
      assert Up(w.note, w.note[x], 1) == Up(w.note, x, 0);
      RingNeverEnds(w.note, x, 1);
      assert false;
    }
  }

  /** A session shares its top with the one it answers to, and with whoever else answers to that. */
  lemma OneTop(w: World, x: Id, y: Id)
    requires Inv(w) && x in w.live && y in w.live
    ensures x in w.note && w.note[x] == y ==> TopOf(w, x) == TopOf(w, y)
    ensures x in w.note && y in w.note && w.note[x] == w.note[y] ==> TopOf(w, x) == TopOf(w, y)
  {
    LiveEnds(w, x);
    LiveEnds(w, y);
    if x in w.note {
      TopOfNote(w.note, x);
    }
    if y in w.note {
      TopOfNote(w.note, y);
    }
  }

  lemma TopOfNote(notes: Notes, x: Id)
    requires x in notes && Ends(notes, x)
    ensures Ends(notes, notes[x]) && Top(notes, x) == Top(notes, notes[x])
  {
    var d := Depth(notes, x);
    DepthStep(notes, x, d - 1);
    TopIs(notes, notes[x], d - 1);
  }
}
