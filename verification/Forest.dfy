/** The tree of sessions as it grows: a main begins, a session names a child and the child comes up,
    one main takes another on, and any of them ends. Each is one step over the notes in the project
    directory, guarded as `answering.rs` and `directory/pending.rs` guard it. */
module Forest {
  import opened Options
  import opened Sets
  import opened Decimal
  import opened Texts
  import opened Chains
  import opened Walks

  const MAX_CHILDREN := 8

  /** A child named and not yet up: who named it, the run it was handed, and whether the hold on its
      name still counts. */
  datatype Hold = Hold(parent: Id, run: string, counts: bool)

  /** `note` holds the `.parent` notes and `run` the `.session` notes of the sessions that are up. */
  datatype World = World(live: set<Id>, note: Notes, coming: map<Id, Hold>, run: map<Id, string>)

  const EMPTY := World({}, map[], map[], map[])

  /** The run a main begins: its own name and a nonce of fixed width. */
  function Minted(id: Id, nonce: nat): string {
    id + "-" + Padded(nonce, 39)
  }

  ghost function Children(w: World, p: Id): set<Id> {
    set c | c in w.live && c != p && c in w.note && w.note[c] == p
  }

  ghost function ComingOf(w: World, p: Id): set<Id> {
    set c | c in w.coming && w.coming[c].parent == p && w.coming[c].counts
  }

  /** A name nobody has, and that no note left behind still means somebody by. */
  ghost predicate Free(w: World, id: Id) {
    && Dashes(id) == 1
    && id !in w.live && id !in w.coming && id !in w.note.Values
    && forall c :: c in w.coming ==> w.coming[c].parent != id
  }

  // ---- The guards --------------------------------------------------------------------------

  datatype Refused =
    | Itself
    | ParentAnswers(to: Id)
    | ChildAnswers(to: Id)
    | AlreadyAbove
    | TooDeep(deep: nat)
    | TooMany(running: nat)

  /** The checks on one main taking another on, in their order, given how tall the branch below `child`
      is and how many children `parent` has running and coming. */
  function Guarded(notes: Notes, parent: Id, child: Id, height: nat, running: nat): Option<Refused> {
    var deep := Counted(notes, parent, MAX_DEPTH) + 1 + height;
    if parent == child then Some(Itself)
    else if parent in notes then Some(ParentAnswers(notes[parent]))
    else if child in notes then Some(ChildAnswers(notes[child]))
    else if RootOf(notes, parent) == Some(child) then Some(AlreadyAbove)
    else if deep >= MAX_DEPTH then Some(TooDeep(deep))
    else if running >= MAX_CHILDREN then Some(TooMany(running))
    else None
  }

  /** Who a listing of sessions says answers to `p`. */
  function ChildrenListed(kin: seq<Kin>, p: Id): nat {
    if kin == [] then 0
    else (if kin[0].id != p && kin[0].up == Some(p) then 1 else 0) + ChildrenListed(kin[1..], p)
  }

  /** Why `parent` may not take `child` on, if there is a reason, read off a listing of the sessions
      that answer and the notes beside their sockets. */
  function AdoptableBy(notes: Notes, kin: seq<Kin>, parent: Id, child: Id, also: nat): Option<Refused> {
    Guarded(notes, parent, child, HeightBelow(kin, child), ChildrenListed(kin, parent) + also)
  }

  /** The same, of the world as it stands. */
  ghost function Adoptable(w: World, parent: Id, child: Id, also: nat): Option<Refused> {
    Guarded(w.note, parent, child, Tallest(w.note, child, MAX_DEPTH), |Children(w, parent)| + also)
  }

  /** Whether `parent` may name one more child. */
  ghost predicate MayMint(w: World, parent: Id) {
    && Counted(w.note, parent, MAX_DEPTH) + 1 < MAX_DEPTH
    && |Children(w, parent)| + |ComingOf(w, parent)| < MAX_CHILDREN
  }

  // ---- The steps ---------------------------------------------------------------------------

  datatype Step =
    | Begin(id: Id, nonce: nat)
    | Mint(parent: Id, id: Id)
    | ComeUp(id: Id)
    | Adopt(parent: Id, child: Id)
    | End(id: Id)
    | Lapse(id: Id)
    | NeverCome(id: Id)

  ghost predicate Enabled(w: World, s: Step) {
    match s
    case Begin(id, nonce) => Free(w, id) && nonce < Pow10(39)
    case Mint(p, c) => p in w.live && p in w.run && Free(w, c) && MayMint(w, p)
    case ComeUp(c) => c in w.coming
    case Adopt(p, c) => p in w.live && c in w.live && Adoptable(w, p, c, |ComingOf(w, p)|) == None
    case End(z) => z in w.live
    case Lapse(c) => c in w.coming && w.coming[c].counts
    case NeverCome(c) => c in w.coming && !w.coming[c].counts
  }

  ghost function After(w: World, s: Step): World
    requires Enabled(w, s)
  {
    match s
    case Begin(id, nonce) => w.(live := w.live + {id}, run := w.run[id := Minted(id, nonce)])
    case Mint(p, c) => w.(coming := w.coming[c := Hold(p, w.run[p], true)])
    case ComeUp(c) =>
      World(w.live + {c}, w.note[c := w.coming[c].parent], w.coming - {c}, w.run[c := w.coming[c].run])
    case Adopt(p, c) => w.(note := w.note[c := p])
    case End(z) => w.(live := w.live - {z}, note := w.note - {z}, run := w.run - {z})
    case Lapse(c) => w.(coming := w.coming[c := w.coming[c].(counts := false)])
    case NeverCome(c) => w.(coming := w.coming - {c})
  }

  ghost predicate Next(w: World, w': World) {
    exists s :: Enabled(w, s) && w' == After(w, s)
  }

  ghost predicate IsRun(ws: seq<World>) {
    && ws != [] && ws[0] == EMPTY
    && forall i :: 0 <= i < |ws| - 1 ==> Next(ws[i], ws[i + 1])
  }

  // ---- What every run keeps ----------------------------------------------------------------

  ghost predicate Within(notes: Notes, x: Id, cap: nat) {
    exists d: nat :: d <= cap && HasDepth(notes, x, d)
  }

  ghost predicate Filed(w: World) {
    && w.note.Keys <= w.live && w.run.Keys == w.live && w.coming.Keys !! w.live
    && (forall c :: c in w.coming ==> c !in w.note.Values)
    && (forall c, b :: c in w.coming && b in w.coming ==> w.coming[b].parent != c)
  }

  ghost predicate Shallow(w: World, cap: nat)
    requires cap > 0
  {
    && (forall x :: x in w.live ==> Within(w.note, x, cap))
    && (forall c :: c in w.coming ==> Within(w.note, w.coming[c].parent, cap - 1))
  }

  ghost predicate Narrow(w: World) {
    forall p :: p in w.live ==> |Children(w, p)| + |ComingOf(w, p)| <= MAX_CHILDREN
  }

  /** A main that is up belongs to the run it began. */
  ghost predicate BegunByMains(w: World) {
    && (forall x :: x in w.live && x !in w.note ==>
          x in w.run && exists nonce: nat :: nonce < Pow10(39) && w.run[x] == Minted(x, nonce))
    && (forall x :: x in w.live || x in w.coming || x in w.note.Values ==> Dashes(x) == 1)
    && (forall c :: c in w.coming ==> Dashes(w.coming[c].parent) == 1)
  }

  ghost predicate Inv(w: World) {
    Filed(w) && Shallow(w, MAX_DEPTH) && BegunByMains(w)
  }

  // ---- The listing the guards read --------------------------------------------------------------

  /** Everybody up, each once, with the note beside its socket. */
  ghost predicate Lists(w: World, kin: seq<Kin>) {
    && DistinctKin(kin)
    && (forall x :: x in w.live <==> exists j :: 0 <= j < |kin| && kin[j].id == x)
    && (forall j :: 0 <= j < |kin| ==>
          kin[j].up == if kin[j].id in w.note then Some(w.note[kin[j].id]) else None)
  }

  lemma ListedNotes(w: World, kin: seq<Kin>)
    requires Filed(w) && Lists(w, kin)
    ensures KinNotes(kin) == w.note
  {
    forall x | x in w.note
      ensures x in KinNotes(kin)
    {
      assert x in w.live;
    }
  }

  lemma {:induction false} ListedChildren(kin: seq<Kin>, p: Id) returns (ids: set<Id>)
    requires DistinctKin(kin)
    ensures |ids| == ChildrenListed(kin, p)
    ensures forall x :: x in ids <==> exists j :: 0 <= j < |kin| && kin[j].id == x && x != p && kin[j].up == Some(p)
  {
    ids := {};
    if kin != [] {
      var rest := kin[1..];
      assert forall i :: 0 <= i < |rest| ==> rest[i] == kin[i + 1];
      var more := ListedChildren(rest, p);
      ids := if kin[0].id != p && kin[0].up == Some(p) then more + {kin[0].id} else more;
      forall x
        ensures x in ids <==> exists j :: 0 <= j < |kin| && kin[j].id == x && x != p && kin[j].up == Some(p)
      {
        if x in more {
          var i :| 0 <= i < |rest| && rest[i].id == x && x != p && rest[i].up == Some(p);
          assert kin[i + 1].id == x;
        }
        if j :| 0 < j < |kin| && kin[j].id == x && x != p && kin[j].up == Some(p) {
          assert rest[j - 1].id == x;
        }
      }
    }
  }

  /** What the program works out from a listing, the height by its own recursion and the children by
      going through it, is what the guards here are stated by. */
  lemma AdoptableReadsTheListing(w: World, kin: seq<Kin>, parent: Id, child: Id, also: nat)
    requires Filed(w) && Lists(w, kin)
    ensures HeightBelow(kin, child) == Tallest(w.note, child, MAX_DEPTH)
    ensures ChildrenListed(kin, parent) == |Children(w, parent)|
    ensures AdoptableBy(w.note, kin, parent, child, also) == Adoptable(w, parent, child, also)
  {
    hide Deepest, Tallest, ChildrenListed, Counted, RootOf;
    ListedNotes(w, kin);
    DeepestIsTallest(kin, child, MAX_DEPTH);
    var ids := ListedChildren(kin, parent);
    ChildrenAre(w, kin, parent, ids);
  }

  lemma ChildrenAre(w: World, kin: seq<Kin>, p: Id, ids: set<Id>)
    requires Lists(w, kin)
    requires forall x :: x in ids <==> exists j :: 0 <= j < |kin| && kin[j].id == x && x != p && kin[j].up == Some(p)
    ensures ids == Children(w, p)
  {
    forall x
      ensures x in ids <==> x in Children(w, p)
    {
      if x in Children(w, p) {
        var j :| 0 <= j < |kin| && kin[j].id == x;
      }
    }
  }

  // ---- When the guards let a step through, exactly ----------------------------------------------

  /** Nobody stands seven notes below `x`, nor eight. */
  ghost predicate Low(notes: Notes, x: Id) {
    forall n: nat :: n <= 8 && Reaches(notes, x, n) ==> n < 7
  }

  lemma LowIsTallest(notes: Notes, x: Id)
    ensures Low(notes, x) <==> Tallest(notes, x, MAX_DEPTH) < 7
  {
    var h := Tallest(notes, x, MAX_DEPTH);
    if h == 0 {
      forall n: nat | n <= 8 && Reaches(notes, x, n)
        ensures n == 0
      {
      }
    } else if h >= 7 {
      assert Reaches(notes, x, h);
    }
  }

  /** One session may take another on exactly when they are two, both mains, nobody hangs seven or more
      levels under the one taken on, and the one that takes has seven children or fewer, running and
      coming. Otherwise it is told why, the first reason there is. */
  lemma AdoptableExactly(w: World, p: Id, c: Id, also: nat)
    ensures var r := Adoptable(w, p, c, also);
            && (r == None <==> p != c && p !in w.note && c !in w.note && Low(w.note, c)
                               && |Children(w, p)| + also <= 7)
            && (p == c ==> r == Some(Itself))
            && (p != c && p in w.note ==> r == Some(ParentAnswers(w.note[p])))
            && (p != c && p !in w.note && c in w.note ==> r == Some(ChildAnswers(w.note[c])))
            && (p != c && p !in w.note && c !in w.note && !Low(w.note, c) ==>
                  r == Some(TooDeep(1 + Tallest(w.note, c, 8))))
            && (p != c && p !in w.note && c !in w.note && Low(w.note, c) && |Children(w, p)| + also > 7 ==>
                  r == Some(TooMany(|Children(w, p)| + also)))
  {
    hide Tallest, RootOf, Low, Children;
    LowIsTallest(w.note, c);
    if p !in w.note {
      assert HasDepth(w.note, p, 0);
      RootOfClimbs(w.note, p, 0);
    }
  }

  lemma AdoptEnabled(w: World, p: Id, c: Id)
    requires p in w.live && c in w.live && p != c && p !in w.note && c !in w.note
    ensures Enabled(w, Adopt(p, c)) <==> Low(w.note, c) && |Children(w, p)| + |ComingOf(w, p)| <= 7
  {
    hide Adoptable, Low, Children, ComingOf;
    AdoptableExactly(w, p, c, |ComingOf(w, p)|);
  }

  /** A session with `d` ancestors may name a child exactly when it has six or fewer, and seven children or
      fewer, running and coming; the child then comes up under it, one level down, in its run. */
  lemma MintExactly(w: World, p: Id, c: Id, d: nat)
    requires Filed(w) && p in w.live && Free(w, c) && HasDepth(w.note, p, d)
    ensures Enabled(w, Mint(p, c)) <==> d <= 6 && |Children(w, p)| + |ComingOf(w, p)| <= 7
    ensures Enabled(w, Mint(p, c)) ==>
              var named := After(w, Mint(p, c));
              && c in named.coming && c !in named.live && |ComingOf(named, p)| == |ComingOf(w, p)| + 1
              && Enabled(named, ComeUp(c))
              && var up := After(named, ComeUp(c));
                 && c in up.live && c !in up.coming && c in up.note && up.note[c] == p
                 && c in up.run && up.run[c] == w.run[p] && HasDepth(up.note, c, d + 1)
                 && ComingOf(up, p) == ComingOf(w, p) && Children(up, p) == Children(w, p) + {c}
  {
    CountedIsDepth(w.note, p, MAX_DEPTH);
    if Enabled(w, Mint(p, c)) {
      hide Free, MayMint;
      NamedThenUp(w, p, c);
      FreeIsNew(w, c);
      assert HasDepth(w.note, c, 0);
      LeafDepth(w.note, c, p, d, c, 0);
    }
  }

  lemma FreeIsNew(w: World, c: Id)
    requires Filed(w) && Free(w, c)
    ensures c !in w.live && c !in w.note && c !in w.note.Values && c !in w.coming
  {
  }

  lemma NamedThenUp(w: World, p: Id, c: Id)
    requires Filed(w) && p in w.live && Enabled(w, Mint(p, c))
    ensures var named := After(w, Mint(p, c));
            && c in named.coming && c !in named.live && ComingOf(named, p) == ComingOf(w, p) + {c}
            && c !in ComingOf(w, p) && Enabled(named, ComeUp(c))
            && var up := After(named, ComeUp(c));
               && c in up.live && c !in up.coming && up.note == w.note[c := p] && up.run == w.run[c := w.run[p]]
               && ComingOf(up, p) == ComingOf(w, p) && Children(up, p) == Children(w, p) + {c}
  {
    hide MayMint, Dashes;
  }

  /** A lapsed hold only stops counting. */
  lemma Lapsing(w: World, c: Id)
    requires Filed(w) && c in w.coming && w.coming[c].counts
    ensures var lapsed := After(w, Lapse(c));
            && c in lapsed.coming && Enabled(lapsed, ComeUp(c)) && Enabled(lapsed, NeverCome(c))
            && ComingOf(lapsed, w.coming[c].parent) == ComingOf(w, w.coming[c].parent) - {c}
            && lapsed.live == w.live && lapsed.note == w.note && lapsed.coming - {c} == w.coming - {c}
  {
  }

  /** And a child that then never comes leaves its name free again. */
  lemma NeverComing(w: World, c: Id)
    requires Filed(w) && c in w.coming && !w.coming[c].counts
    ensures After(w, NeverCome(c)) == w.(coming := w.coming - {c})
    ensures Dashes(c) == 1 ==> Free(After(w, NeverCome(c)), c)
  {
    hide Dashes, Filed, Free;
    FreeWithout(w, c);
  }

  lemma FreeWithout(w: World, c: Id)
    requires Filed(w) && c in w.coming
    ensures Dashes(c) == 1 ==> Free(w.(coming := w.coming - {c}), c)
  {
    hide Dashes;
    forall b | b in w.coming - {c}
      ensures w.coming[b].parent != c
    {
    }
  }

  /** Whoever ends is gone, with its note and its run, and nothing else is. */
  lemma EndForgets(w: World, z: Id)
    requires Filed(w) && z in w.live
    ensures var w' := After(w, End(z));
            && z !in w'.live && z !in w'.note && z !in w'.run && w'.coming == w.coming
            && (forall x :: x != z ==> (x in w'.live <==> x in w.live) && (x in w'.note <==> x in w.note))
            && (forall x :: x != z && x in w.note ==> w'.note[x] == w.note[x])
            && (forall x :: x != z && x in w.run ==> x in w'.run && w'.run[x] == w.run[x])
  {
  }

  // ---- Depth -------------------------------------------------------------------------------

  lemma NamedAbove(notes: Notes, x: Id, n: nat, y: Id)
    requires n > 0 && Up(notes, x, n) == Some(y)
    ensures y in notes.Values
  {
    UpShorter(notes, x, n - 1, n);
    UpAdds(notes, x, n - 1, 1);
    var z := Up(notes, x, n - 1).value;
    assert Up(notes, z, 1) == Some(notes[z]);
  }

  /** A name no note means anybody by hangs as a leaf: nobody else's depth changes. */
  lemma LeafDepth(notes: Notes, c: Id, p: Id, dp: nat, x: Id, d: nat)
    requires c !in notes && c !in notes.Values && c != p && HasDepth(notes, p, dp)
    requires HasDepth(notes, x, d)
    ensures HasDepth(notes[c := p], c, dp + 1)
    ensures x != c ==> HasDepth(notes[c := p], x, d)
  {
    if Up(notes, p, dp) == Some(c) {
      NamedAbove(notes, p, dp, c);
    }
    if x != c && Up(notes, x, d) == Some(c) {
      NamedAbove(notes, x, d, c);
    }
    DepthAfterHang(notes, c, p, dp, x, d);
    assert HasDepth(notes, c, 0);
    DepthAfterHang(notes, c, p, dp, c, 0);
  }

  /** Taking a main on moves its whole branch one level down and nobody else. */
  lemma GraftDepth(notes: Notes, child: Id, parent: Id, x: Id, d: nat)
    requires child !in notes && parent !in notes && child != parent && HasDepth(notes, x, d)
    ensures HasDepth(notes[child := parent], x, if Up(notes, x, d) == Some(child) then d + 1 else d)
  {
    assert HasDepth(notes, parent, 0) && Up(notes, parent, 0) == Some(parent);
    DepthAfterHang(notes, child, parent, 0, x, d);
  }

  lemma CutWithin(notes: Notes, z: Id, x: Id, cap: nat)
    requires Within(notes, x, cap)
    ensures Within(notes - {z}, x, cap)
  {
    var d: nat :| d <= cap && HasDepth(notes, x, d);
    var e := DepthAfterCut(notes, z, x, d);
  }

  /** Each step but a graft keeps any bound on depth that a mint respects. */
  lemma StepKeepsShallow(w: World, s: Step, cap: nat)
    requires MAX_DEPTH - 1 <= cap <= MAX_DEPTH
    requires Filed(w) && Shallow(w, cap) && Enabled(w, s) && !s.Adopt?
    ensures Shallow(After(w, s), cap)
  {
    match s
    case Begin(id, nonce) =>
      assert HasDepth(w.note, id, 0);
    case Mint(p, c) =>
      var d: nat :| d <= cap && HasDepth(w.note, p, d);
      CountedIsDepth(w.note, p, MAX_DEPTH);
    case ComeUp(c) =>
      ComeUpKeepsShallow(w, c, cap);
    case End(z) =>
      forall x | x in w.live
        ensures Within(w.note - {z}, x, cap)
      {
        CutWithin(w.note, z, x, cap);
      }
      forall c | c in w.coming
        ensures Within(w.note - {z}, w.coming[c].parent, cap - 1)
      {
        CutWithin(w.note, z, w.coming[c].parent, cap - 1);
      }
    case Lapse(c) =>
    case NeverCome(c) =>
  }

  lemma ComeUpKeepsShallow(w: World, c: Id, cap: nat)
    requires MAX_DEPTH - 1 <= cap <= MAX_DEPTH
    requires Filed(w) && Shallow(w, cap) && c in w.coming
    ensures Shallow(After(w, ComeUp(c)), cap)
  {
    var p := w.coming[c].parent;
    var dp: nat :| dp <= cap - 1 && HasDepth(w.note, p, dp);
    assert HasDepth(w.note, c, 0);
    LeafDepth(w.note, c, p, dp, c, 0);
    forall x | x in w.live
      ensures Within(w.note[c := p], x, cap)
    {
      LeafWithin(w.note, c, p, dp, x, cap);
    }
    forall b | b in w.coming
      ensures Within(w.note[c := p], w.coming[b].parent, cap - 1)
    {
      LeafWithin(w.note, c, p, dp, w.coming[b].parent, cap - 1);
    }
  }

  lemma LeafWithin(notes: Notes, c: Id, p: Id, dp: nat, x: Id, cap: nat)
    requires c !in notes && c !in notes.Values && c != p && HasDepth(notes, p, dp)
    requires x != c && Within(notes, x, cap)
    ensures Within(notes[c := p], x, cap)
  {
    var d: nat :| d <= cap && HasDepth(notes, x, d);
    LeafDepth(notes, c, p, dp, x, d);
  }

  /** Whoever hangs under a main that may be taken on hangs at most six levels under it. */
  lemma GraftIsShallow(w: World, parent: Id, child: Id, x: Id, d: nat)
    requires Adoptable(w, parent, child, |ComingOf(w, parent)|) == None
    requires HasDepth(w.note, x, d) && d <= MAX_DEPTH && Up(w.note, x, d) == Some(child)
    ensures d <= MAX_DEPTH - 2
  {
    assert Reaches(w.note, child, d);
  }

  lemma GraftKeepsShallow(w: World, parent: Id, child: Id)
    requires Filed(w) && Shallow(w, MAX_DEPTH) && Enabled(w, Adopt(parent, child))
    ensures Shallow(After(w, Adopt(parent, child)), MAX_DEPTH)
  {
    forall x | x in w.live
      ensures Within(w.note[child := parent], x, MAX_DEPTH)
    {
      GraftWithin(w, parent, child, x, MAX_DEPTH);
    }
    forall c | c in w.coming
      ensures Within(w.note[child := parent], w.coming[c].parent, MAX_DEPTH - 1)
    {
      GraftWithin(w, parent, child, w.coming[c].parent, MAX_DEPTH - 1);
    }
  }

  lemma GraftWithin(w: World, parent: Id, child: Id, x: Id, cap: nat)
    requires MAX_DEPTH - 1 <= cap <= MAX_DEPTH
    requires Enabled(w, Adopt(parent, child)) && Within(w.note, x, cap)
    ensures Within(w.note[child := parent], x, cap)
  {
    var d: nat :| d <= cap && HasDepth(w.note, x, d);
    GraftDepth(w.note, child, parent, x, d);
    if Up(w.note, x, d) == Some(child) {
      GraftIsShallow(w, parent, child, x, d);
    }
  }

  // ---- Breadth -----------------------------------------------------------------------------

  /** A child comes up after its hold has lapsed, where its parent has eight already. */
  ghost predicate Crowds(w: World, s: Step) {
    && s.ComeUp? && s.id in w.coming && !w.coming[s.id].counts && w.coming[s.id].parent in w.live
    && |Children(w, w.coming[s.id].parent)| + |ComingOf(w, w.coming[s.id].parent)| >= MAX_CHILDREN
  }

  /** Every step keeps the bound on children, running and coming, if and only if it is not that one. */
  lemma StepKeepsNarrow(w: World, s: Step)
    requires Filed(w) && Narrow(w) && Enabled(w, s)
    ensures Narrow(After(w, s)) <==> !Crowds(w, s)
  {
    if Crowds(w, s) {
      CrowdsOver(w, s.id);
      ParentStays(w, s.id);
      NarrowAt(After(w, s), w.coming[s.id].parent);
    } else {
      forall p | p in After(w, s).live
        ensures |Children(After(w, s), p)| + |ComingOf(After(w, s), p)| <= MAX_CHILDREN
      {
        BreadthAfter(w, s, p);
      }
    }
  }

  lemma NarrowAt(w: World, p: Id)
    requires p in w.live && |Children(w, p)| + |ComingOf(w, p)| > MAX_CHILDREN
    ensures !Narrow(w)
  {
  }

  lemma ParentStays(w: World, c: Id)
    requires c in w.coming && w.coming[c].parent in w.live
    ensures w.coming[c].parent in After(w, ComeUp(c)).live
  {
  }

  lemma CrowdsOver(w: World, c: Id)
    requires Filed(w) && Crowds(w, ComeUp(c))
    ensures var w', p := After(w, ComeUp(c)), w.coming[c].parent;
            |Children(w', p)| + |ComingOf(w', p)| > MAX_CHILDREN
  {
    ComeUpCounts(w, c, w.coming[c].parent);
  }

  /** What each step does to the children one session has, up and coming. */
  lemma BreadthAfter(w: World, s: Step, p: Id)
    requires Filed(w) && Narrow(w) && Enabled(w, s) && !Crowds(w, s) && p in After(w, s).live
    ensures |Children(After(w, s), p)| + |ComingOf(After(w, s), p)| <= MAX_CHILDREN
  {
    hide Filed, Narrow, Adoptable, Crowds;
    match s
    case Begin(id, nonce) =>
      BeginBreadth(w, id, nonce, p);
    case Mint(q, c) =>
      MintBreadth(w, q, c, p);
    case ComeUp(c) =>
      ComeUpBreadth(w, c, p);
    case Adopt(q, c) =>
      AdoptGuards(w, q, c);
      AdoptBreadth(w, q, c, p);
    case End(z) =>
      FewerBreadth(w, After(w, s), p);
    case Lapse(c) =>
      FewerBreadth(w, After(w, s), p);
    case NeverCome(c) =>
      FewerBreadth(w, After(w, s), p);
  }

  lemma AdoptGuards(w: World, parent: Id, child: Id)
    requires Adoptable(w, parent, child, |ComingOf(w, parent)|) == None
    ensures parent != child && parent !in w.note && child !in w.note
    ensures |Children(w, parent)| + |ComingOf(w, parent)| < MAX_CHILDREN
  {}

  lemma BeginBreadth(w: World, id: Id, nonce: nat, p: Id)
    requires Filed(w) && Narrow(w) && Enabled(w, Begin(id, nonce)) && (p in w.live || p == id)
    ensures var w' := After(w, Begin(id, nonce)); |Children(w', p)| + |ComingOf(w', p)| <= MAX_CHILDREN
  {
    var w' := After(w, Begin(id, nonce));
    if p == id {
      NobodysParent(w', id);
    } else {
      BeginAddsNoChild(w, id, nonce, p);
    }
  }

  lemma BeginAddsNoChild(w: World, id: Id, nonce: nat, p: Id)
    requires Filed(w) && Enabled(w, Begin(id, nonce)) && p != id
    ensures Children(After(w, Begin(id, nonce)), p) == Children(w, p)
    ensures ComingOf(After(w, Begin(id, nonce)), p) == ComingOf(w, p)
  {}

  lemma MintBreadth(w: World, q: Id, c: Id, p: Id)
    requires Narrow(w) && Enabled(w, Mint(q, c)) && p in w.live
    ensures var w' := After(w, Mint(q, c)); |Children(w', p)| + |ComingOf(w', p)| <= MAX_CHILDREN
  {
    hide Free, Dashes, Children, ComingOf, Counted;
    MintCounts(w, q, c, p);
  }

  lemma MintCounts(w: World, q: Id, c: Id, p: Id)
    requires Enabled(w, Mint(q, c))
    ensures var w' := After(w, Mint(q, c));
            && c !in ComingOf(w, q)
            && Children(w', p) == Children(w, p)
            && ComingOf(w', p) == if p == q then ComingOf(w, p) + {c} else ComingOf(w, p)
  {
    hide Dashes, Counted, MayMint;
  }

  lemma FewerBreadth(w: World, w': World, p: Id)
    requires Narrow(w) && p in w.live
    requires Children(w', p) <= Children(w, p) && ComingOf(w', p) <= ComingOf(w, p)
    ensures |Children(w', p)| + |ComingOf(w', p)| <= MAX_CHILDREN
  {
    FewerInAll(Children(w', p), Children(w, p));
    FewerInAll(ComingOf(w', p), ComingOf(w, p));
  }

  lemma NobodysParent(w: World, p: Id)
    requires p !in w.note.Values && forall c :: c in w.coming ==> w.coming[c].parent != p
    ensures Children(w, p) == {} && ComingOf(w, p) == {}
  {
  }

  /** A graft adds the one child its guard left room for. */
  lemma AdoptBreadth(w: World, q: Id, c: Id, p: Id)
    requires Narrow(w) && p in w.live && c in w.live && c !in w.note && c != q
    requires |Children(w, q)| + |ComingOf(w, q)| < MAX_CHILDREN
    ensures var w' := w.(note := w.note[c := q]); |Children(w', p)| + |ComingOf(w', p)| <= MAX_CHILDREN
  {
    var w' := w.(note := w.note[c := q]);
    assert Children(w', p) == if p == q then Children(w, p) + {c} else Children(w, p);
    assert ComingOf(w', p) == ComingOf(w, p);
  }

  /** A child whose hold is fresh counts once, before and after; one whose hold has lapsed is one more. */
  lemma ComeUpBreadth(w: World, c: Id, p: Id)
    requires Filed(w) && Narrow(w) && c in w.coming && (p in w.live || p == c) && !Crowds(w, ComeUp(c))
    ensures var w' := After(w, ComeUp(c)); |Children(w', p)| + |ComingOf(w', p)| <= MAX_CHILDREN
  {
    var w', q := After(w, ComeUp(c)), w.coming[c].parent;
    if p == c {
      ValuesAfter(w, ComeUp(c));
      NobodysParent(w', c);
    } else {
      ComeUpCounts(w, c, p);
    }
  }

  lemma ComeUpCounts(w: World, c: Id, p: Id)
    requires Filed(w) && c in w.coming && p != c
    ensures var w', mine := After(w, ComeUp(c)), (if w.coming[c].parent == p then {c} else {});
            var held := if w.coming[c].counts then mine else {};
            && Children(w', p) == Children(w, p) + mine && ComingOf(w, p) == ComingOf(w', p) + held
            && mine !! Children(w, p) && held !! ComingOf(w', p)
  {
  }

  // ---- Every run ---------------------------------------------------------------------------

  lemma StepKeepsFiled(w: World, s: Step)
    requires Filed(w) && Enabled(w, s)
    ensures Filed(After(w, s))
  {
    hide Adoptable, MayMint, Minted, Dashes, Pow10;
    ValuesAfter(w, s);
  }

  /** Only a child coming up and a graft write a note, each naming one session. */
  lemma ValuesAfter(w: World, s: Step)
    requires Enabled(w, s)
    ensures After(w, s).note.Values <=
              w.note.Values + (if s.ComeUp? then {w.coming[s.id].parent}
                               else if s.Adopt? then {s.parent} else {})
  {
    var after := After(w, s).note;
    forall y | y in after.Values
      ensures y in w.note.Values || (s.ComeUp? && y == w.coming[s.id].parent) || (s.Adopt? && y == s.parent)
    {
      var x :| x in after && after[x] == y;
    }
  }

  lemma StepKeepsBegun(w: World, s: Step)
    requires Filed(w) && BegunByMains(w) && Enabled(w, s)
    ensures BegunByMains(After(w, s))
  {
    hide Adoptable, MayMint, Minted, Dashes, Pow10;
    ValuesAfter(w, s);
    var w' := After(w, s);
    forall x | x in w'.live && x !in w'.note
      ensures x in w'.run && exists nonce: nat :: nonce < Pow10(39) && w'.run[x] == Minted(x, nonce)
    {
      if s.Begin? && x == s.id {
        assert w'.run[x] == Minted(x, s.nonce);
      } else {
        assert x in w.live && x !in w.note && w'.run[x] == w.run[x];
      }
    }
  }

  lemma StepKeepsInv(w: World, s: Step)
    requires Inv(w) && Enabled(w, s)
    ensures Inv(After(w, s))
  {
    hide Filed, Shallow, BegunByMains, Enabled, After;
    if s.Adopt? {
      GraftKeepsShallow(w, s.parent, s.child);
    } else {
      StepKeepsShallow(w, s, MAX_DEPTH);
    }
    StepKeepsFiled(w, s);
    StepKeepsBegun(w, s);
  }

  lemma {:induction false} RunKeepsInv(ws: seq<World>)
    requires IsRun(ws)
    ensures forall i :: 0 <= i < |ws| ==> Inv(ws[i])
  {
    hide Inv, Next;
    if |ws| > 1 {
      var n := |ws| - 2;
      RunShorter(ws);
      RunKeepsInv(ws[..|ws| - 1]);
      assert Inv(ws[..|ws| - 1][n]);
      NextKeepsInv(ws[n], ws[n + 1]);
    } else {
      EmptyInv();
    }
  }

  lemma EmptyInv()
    ensures Inv(EMPTY)
  {}

  lemma NextKeepsInv(w: World, w': World)
    requires Inv(w) && Next(w, w')
    ensures Inv(w')
  {
    var s :| Enabled(w, s) && w' == After(w, s);
    StepKeepsInv(w, s);
  }

  lemma RunShorter(ws: seq<World>)
    requires IsRun(ws) && |ws| > 1
    ensures IsRun(ws[..|ws| - 1]) && Next(ws[|ws| - 2], ws[|ws| - 1])
  {
    hide Next;
    var front := ws[..|ws| - 1];
    forall i | 0 <= i < |front| - 1
      ensures Next(front[i], front[i + 1])
    {
      assert Next(ws[i], ws[i + 1]);
    }
    assert Next(ws[|ws| - 2], ws[|ws| - 2 + 1]);
  }

  ghost predicate UncrowdedNext(w: World, w': World) {
    exists s :: Enabled(w, s) && w' == After(w, s) && !Crowds(w, s)
  }

  /** No child came up late to a parent of eight. */
  ghost predicate Uncrowded(ws: seq<World>) {
    forall i :: 0 <= i < |ws| - 1 ==> UncrowdedNext(ws[i], ws[i + 1])
  }

  lemma {:induction false} UncrowdedRuns(ws: seq<World>)
    requires IsRun(ws) && Uncrowded(ws)
    ensures Narrow(ws[|ws| - 1])
  {
    hide Inv, Next, UncrowdedNext, Narrow;
    if |ws| > 1 {
      RunKeepsInv(ws);
      RunShorter(ws);
      var front := ws[..|ws| - 1];
      forall i | 0 <= i < |front| - 1
        ensures UncrowdedNext(front[i], front[i + 1])
      {
        assert UncrowdedNext(ws[i], ws[i + 1]);
      }
      UncrowdedRuns(front);
      assert UncrowdedNext(ws[|ws| - 2], ws[|ws| - 2 + 1]);
      UncrowdedStep(ws[|ws| - 2], ws[|ws| - 1]);
    } else {
      EmptyNarrow();
    }
  }

  lemma EmptyNarrow()
    ensures Narrow(EMPTY)
  {
  }

  lemma UncrowdedStep(w: World, w': World)
    requires Inv(w) && Narrow(w) && UncrowdedNext(w, w')
    ensures Narrow(w')
  {
    hide Narrow, Crowds;
    var s :| Enabled(w, s) && w' == After(w, s) && !Crowds(w, s);
    StepKeepsNarrow(w, s);
  }

  /** At the end of every run, and so at every point of one: no walk up the notes is a ring, nobody has
      more than eight ancestors, and, unless a child came up late to a parent of eight, nobody has more
      than eight children, those still coming up included. */
  lemma EveryRunIsAForest(ws: seq<World>)
    requires IsRun(ws)
    ensures var w := ws[|ws| - 1];
            && Chains.Forest(w.note)
            && (forall x, d: nat :: x in w.live && HasDepth(w.note, x, d) ==> d <= MAX_DEPTH)
            && (Uncrowded(ws) ==> Narrow(w))
  {
    RunKeepsInv(ws);
    var w := ws[|ws| - 1];
    assert Inv(w);
    if Uncrowded(ws) {
      UncrowdedRuns(ws);
    }
    hide Narrow, Uncrowded;
    forall x
      ensures Ends(w.note, x)
      ensures forall d: nat :: x in w.live && HasDepth(w.note, x, d) ==> d <= MAX_DEPTH
    {
      if x in w.live {
        var e: nat :| e <= MAX_DEPTH && HasDepth(w.note, x, e);
        forall d: nat | HasDepth(w.note, x, d)
          ensures d <= MAX_DEPTH
        {
          DepthUnique(w.note, x, d, e);
        }
      } else {
        assert HasDepth(w.note, x, 0);
      }
    }
  }

  // ---- Seven ancestors, and when there are eight ---------------------------------------------

  /** A child named six levels under `child` is still to come up: the height the graft is checked
      against does not see it. */
  ghost predicate ComingAtTheBottom(w: World, child: Id) {
    exists c :: c in w.coming && Up(w.note, w.coming[c].parent, 6) == Some(child)
  }

  /** Every step keeps the bound of seven ancestors, for those up and those coming alike, except a
      graft; and a graft keeps it exactly when nobody is coming up at the bottom of the branch it
      takes on. */
  lemma SevenAncestors(w: World, s: Step)
    requires Inv(w) && Shallow(w, MAX_DEPTH - 1) && Enabled(w, s)
    ensures Shallow(After(w, s), MAX_DEPTH - 1) <==> !(s.Adopt? && ComingAtTheBottom(w, s.child))
  {
    if s.Adopt? {
      SevenAfterGraft(w, s.parent, s.child);
    } else {
      StepKeepsShallow(w, s, MAX_DEPTH - 1);
    }
  }

  lemma SevenAfterGraft(w: World, parent: Id, child: Id)
    requires Inv(w) && Shallow(w, MAX_DEPTH - 1) && Enabled(w, Adopt(parent, child))
    ensures Shallow(After(w, Adopt(parent, child)), MAX_DEPTH - 1) <==> !ComingAtTheBottom(w, child)
  {
    AdoptGuards(w, parent, child);
    var after := w.note[child := parent];
    forall x | x in w.live
      ensures Within(after, x, MAX_DEPTH - 1)
    {
      GraftWithin(w, parent, child, x, MAX_DEPTH - 1);
    }
    forall c | c in w.coming
      ensures Within(after, w.coming[c].parent, MAX_DEPTH - 2)
         <==> Up(w.note, w.coming[c].parent, 6) != Some(child)
    {
      HeldAfterGraft(w.note, parent, child, w.coming[c].parent);
    }
  }

  lemma HeldAfterGraft(notes: Notes, parent: Id, child: Id, x: Id)
    requires child !in notes && parent !in notes && child != parent && Within(notes, x, MAX_DEPTH - 2)
    ensures Within(notes[child := parent], x, MAX_DEPTH - 2) <==> Up(notes, x, 6) != Some(child)
  {
    var d: nat :| d <= MAX_DEPTH - 2 && HasDepth(notes, x, d);
    GraftDepth(notes, child, parent, x, d);
    var after, e := notes[child := parent], if Up(notes, x, d) == Some(child) then d + 1 else d;
    if Up(notes, x, 6) == Some(child) {
      assert HasDepth(notes, x, 6);
      DepthUnique(notes, x, 6, d);
    }
    if Within(after, x, MAX_DEPTH - 2) {
      var f: nat :| f <= MAX_DEPTH - 2 && HasDepth(after, x, f);
      DepthUnique(after, x, e, f);
    }
  }

  /** And then the bound does break: from any such graft, the child that was coming comes up with
      eight ancestors. */
  lemma EighthAncestor(w: World, parent: Id, child: Id, c: Id)
    requires Inv(w) && Enabled(w, Adopt(parent, child))
    requires c in w.coming && Up(w.note, w.coming[c].parent, 6) == Some(child)
    ensures var w' := After(w, Adopt(parent, child));
            && Enabled(w', ComeUp(c))
            && HasDepth(After(w', ComeUp(c)).note, c, 8) && c in After(w', ComeUp(c)).live
  {
    AdoptGuards(w, parent, child);
    hide Adoptable, BegunByMains, Shallow, HasDepth, Up, After;
    EighthDepth(w.note, parent, child, w.coming[c].parent, c);
    GraftThenUp(w, parent, child, c);
  }

  lemma GraftThenUp(w: World, parent: Id, child: Id, c: Id)
    requires Enabled(w, Adopt(parent, child)) && c in w.coming
    ensures var w' := After(w, Adopt(parent, child));
            && Enabled(w', ComeUp(c)) && c in After(w', ComeUp(c)).live
            && After(w', ComeUp(c)).note == w.note[child := parent][c := w.coming[c].parent]
  {
    hide Adoptable;
  }

  lemma EighthDepth(notes: Notes, parent: Id, child: Id, p: Id, c: Id)
    requires child !in notes && parent !in notes && child != parent && Up(notes, p, 6) == Some(child)
    requires c !in notes && c !in notes.Values && c != p && c != parent && c != child
    ensures HasDepth(notes[child := parent][c := p], c, 8)
  {
    var after := notes[child := parent];
    assert HasDepth(notes, p, 6);
    GraftDepth(notes, child, parent, p, 6);
    assert HasDepth(after, c, 0);
    forall x | x in after
      ensures after[x] != c
    {
      assert x in notes ==> notes[x] in notes.Values;
    }
    LeafDepth(after, c, p, 7, c, 0);
  }

  // ---- A run that gets there -----------------------------------------------------------------

  /** Names for a chain of sessions, each one letter longer than the last. */
  function Link(i: nat): Id {
    "a-" + seq(i, _ => 'b')
  }

  const OTHER := "z-z"

  ghost function ChainNotes(n: nat): Notes {
    map x | x in set i | 0 < i <= n :: Link(i) :: x[..|x| - 1]
  }

  /** A main and a single line of sessions under it, `n` deep. */
  ghost function ChainWorld(n: nat): World {
    var ids := set i | 0 <= i <= n :: Link(i);
    World(ids, ChainNotes(n), map[], map x | x in ids :: Minted(Link(0), 0))
  }

  lemma LinkIs(i: nat)
    ensures |Link(i)| == i + 2 && Dashes(Link(i)) == 1 && Link(i) != OTHER
    ensures i > 0 ==> Link(i)[..i + 1] == Link(i - 1)
    ensures forall j: nat :: Link(j) == Link(i) ==> j == i
  {
    DashesOfLink(i);
    if i > 0 {
      assert Link(i)[..i + 1] == Link(i - 1);
    }
    forall j: nat | Link(j) == Link(i)
      ensures j == i
    {
      assert |Link(j)| == j + 2;
    }
  }

  lemma DashesOfLink(i: nat)
    ensures Dashes(Link(i)) == 1
  {
    var tail := seq(i, _ => 'b');
    NoDashes(tail);
    assert Link(i)[1..][1..] == tail;
    assert Dashes(Link(i)[1..]) == 1 + Dashes(Link(i)[1..][1..]);
  }

  /** A step that is not a graft over a child still coming up at the bottom. */
  ghost predicate CarefulNext(w: World, w': World) {
    exists s :: Enabled(w, s) && w' == After(w, s) && !(s.Adopt? && ComingAtTheBottom(w, s.child))
  }

  /** A run of such steps never has a session with more than seven ancestors, nor one coming. */
  lemma {:induction false} CarefulRuns(ws: seq<World>)
    requires IsRun(ws) && forall i :: 0 <= i < |ws| - 1 ==> CarefulNext(ws[i], ws[i + 1])
    ensures Shallow(ws[|ws| - 1], MAX_DEPTH - 1)
  {
    hide Inv, Next, CarefulNext;
    if |ws| > 1 {
      RunKeepsInv(ws);
      RunShorter(ws);
      var front := ws[..|ws| - 1];
      forall i | 0 <= i < |front| - 1
        ensures CarefulNext(front[i], front[i + 1])
      {
        assert CarefulNext(ws[i], ws[i + 1]);
      }
      CarefulRuns(front);
      assert CarefulNext(ws[|ws| - 2], ws[|ws| - 2 + 1]);
      CarefulStep(ws[|ws| - 2], ws[|ws| - 1]);
    }
  }

  lemma CarefulStep(w: World, w': World)
    requires Inv(w) && Shallow(w, MAX_DEPTH - 1) && CarefulNext(w, w')
    ensures Shallow(w', MAX_DEPTH - 1)
  {
    var s :| Enabled(w, s) && w' == After(w, s) && !(s.Adopt? && ComingAtTheBottom(w, s.child));
    SevenAncestors(w, s);
  }

  lemma Onward(ws: seq<World>, s: Step) returns (more: seq<World>)
    requires IsRun(ws) && Enabled(ws[|ws| - 1], s)
    ensures IsRun(more) && more == ws + [After(ws[|ws| - 1], s)]
  {
    hide Enabled, After;
    more := ws + [After(ws[|ws| - 1], s)];
    assert Next(ws[|ws| - 1], After(ws[|ws| - 1], s));
    forall i | 0 <= i < |more| - 1
      ensures Next(more[i], more[i + 1])
    {
      assert i < |ws| - 1 ==> Next(ws[i], ws[i + 1]);
    }
  }

  lemma ChainNote(n: nat, x: Id)
    ensures x in ChainNotes(n) <==> exists i: nat :: 0 < i <= n && x == Link(i)
    ensures forall i: nat :: 0 < i <= n ==> Link(i) in ChainNotes(n) && ChainNotes(n)[Link(i)] == Link(i - 1)
  {
    forall i: nat | 0 < i <= n
      ensures Link(i) in ChainNotes(n) && ChainNotes(n)[Link(i)] == Link(i - 1)
    {
      LinkIs(i);
      assert Link(i) in set j | 0 < j <= n :: Link(j);
    }
  }

  lemma {:induction false} ChainDepth(n: nat, i: nat)
    requires i <= n
    ensures HasDepth(ChainNotes(n), Link(i), i) && Up(ChainNotes(n), Link(i), i) == Some(Link(0))
    decreases i
  {
    ChainNote(n, Link(i));
    if i > 0 {
      ChainDepth(n, i - 1);
    } else {
      forall j: nat | Link(j) == Link(0)
        ensures j == 0
      {
        LinkIs(0);
      }
    }
  }

  lemma ChainValues(n: nat, x: Id)
    requires x in ChainNotes(n).Values
    ensures exists i: nat :: i < n && x == Link(i)
  {
    var y :| y in ChainNotes(n) && ChainNotes(n)[y] == x;
    ChainNote(n, y);
    var i: nat :| 0 < i <= n && y == Link(i);
    assert x == Link(i - 1);
  }

  lemma ChainFree(n: nat, x: Id)
    requires Dashes(x) == 1 && forall i: nat :: i <= n ==> x != Link(i)
    ensures Free(ChainWorld(n), x)
  {
    if x in ChainNotes(n).Values {
      ChainValues(n, x);
    }
  }

  lemma ChainMayMint(n: nat)
    requires n <= 6
    ensures Enabled(ChainWorld(n), Mint(Link(n), Link(n + 1)))
  {
    var w := ChainWorld(n);
    LinkIs(n + 1);
    ChainFree(n, Link(n + 1));
    ChainDepth(n, n);
    CountedIsDepth(w.note, Link(n), MAX_DEPTH);
    forall c | c in w.note
      ensures w.note[c] != Link(n)
    {
      ChainNote(n, c);
      var i: nat :| 0 < i <= n && c == Link(i);
      LinkIs(n);
    }
    assert Children(w, Link(n)) == {} && ComingOf(w, Link(n)) == {};
    assert Link(n) in w.live;
  }

  /** The chain with the next session named and not yet up. */
  ghost function ChainComing(n: nat): World {
    ChainWorld(n).(coming := map[Link(n + 1) := Hold(Link(n), Minted(Link(0), 0), true)])
  }

  lemma ChainMinted(n: nat)
    requires n <= 6
    ensures Enabled(ChainWorld(n), Mint(Link(n), Link(n + 1)))
    ensures After(ChainWorld(n), Mint(Link(n), Link(n + 1))) == ChainComing(n)
  {
    ChainMayMint(n);
    assert Link(n) in ChainWorld(n).live;
  }

  lemma ChainCameUp(n: nat)
    ensures Enabled(ChainComing(n), ComeUp(Link(n + 1)))
    ensures After(ChainComing(n), ComeUp(Link(n + 1))) == ChainWorld(n + 1)
  {
    ChainNotesGrow(n);
    ChainLiveGrows(n);
    hide Link, ChainNotes, Minted;
    var after, next := After(ChainComing(n), ComeUp(Link(n + 1))), ChainWorld(n + 1);
    assert after.run == next.run;
    assert after.coming == next.coming;
  }

  lemma ChainLiveGrows(n: nat)
    ensures ChainWorld(n + 1).live == ChainWorld(n).live + {Link(n + 1)}
  {
    var live := ChainWorld(n + 1).live;
    forall x | x in live
      ensures x in ChainWorld(n).live + {Link(n + 1)}
    {
      var i :| 0 <= i <= n + 1 && x == Link(i);
    }
  }

  lemma ChainNotesGrow(n: nat)
    ensures ChainNotes(n)[Link(n + 1) := Link(n)] == ChainNotes(n + 1)
  {
    LinkIs(n + 1);
    var grown, next := ChainNotes(n)[Link(n + 1) := Link(n)], ChainNotes(n + 1);
    forall x | x in grown.Keys + next.Keys
      ensures x in grown && x in next && grown[x] == next[x]
    {
      ChainNote(n, x);
      ChainNote(n + 1, x);
    }
    assert grown.Keys == next.Keys;
  }

  lemma {:induction false} ChainReached(n: nat) returns (ws: seq<World>)
    requires n <= 6
    ensures IsRun(ws) && ws[|ws| - 1] == ChainWorld(n)
  {
    if n == 0 {
      ws := ChainBegins();
    } else {
      ws := ChainReached(n - 1);
      ChainMinted(n - 1);
      ws := Onward(ws, Mint(Link(n - 1), Link(n)));
      ChainCameUp(n - 1);
      ws := Onward(ws, ComeUp(Link(n)));
    }
  }

  lemma {:induction false} PowPositive(w: nat)
    ensures Pow10(w) > 0
  {
    if w > 0 {
      PowPositive(w - 1);
    }
  }

  lemma ChainBegins() returns (ws: seq<World>)
    ensures IsRun(ws) && ws[|ws| - 1] == ChainWorld(0)
  {
    PowPositive(39);
    LinkIs(0);
    assert ChainWorld(0).live == {Link(0)};
    assert ChainNotes(0) == map[];
    ws := Onward([EMPTY], Begin(Link(0), 0));
  }

  lemma ChainHeight()
    ensures Tallest(ChainNotes(6), Link(0), MAX_DEPTH) <= 6
  {
    forall x, n: nat | 6 < n && Up(ChainNotes(6), x, n) == Some(Link(0))
      ensures false
    {
      ChainNote(6, x);
      var i: nat :| 0 < i <= 6 && x == Link(i);
      ChainDepth(6, i);
      ChainDepth(6, 0);
      assert HasDepth(ChainNotes(6), x, n);
      DepthUnique(ChainNotes(6), x, i, n);
    }
  }

  /** A run in which a session comes up with eight ancestors: a line of seven, an eighth named at its
      end, and the top of the line taken on by another main before that eighth comes up. */
  lemma EightAncestorsHappen() returns (ws: seq<World>, c: Id)
    ensures IsRun(ws) && c in ws[|ws| - 1].live && HasDepth(ws[|ws| - 1].note, c, 8)
  {
    ws := ChainReached(6);
    c := Link(7);
    ChainMinted(6);
    ws := Onward(ws, Mint(Link(6), c));
    OtherBegins();
    ws := Onward(ws, Begin(OTHER, 0));
    var w := ws[|ws| - 1];
    OtherAdopts(w);
    RunKeepsInv(ws);
    ChainDepth(6, 6);
    EighthAncestor(w, OTHER, Link(0), c);
    ws := Onward(ws, Adopt(OTHER, Link(0)));
    ws := Onward(ws, ComeUp(c));
  }

  lemma OtherBegins()
    ensures Enabled(ChainComing(6), Begin(OTHER, 0))
  {
    PowPositive(39);
    assert Dashes(OTHER) == 1 by {
      assert OTHER[1..][1..] == "z";
      NoDashes("z");
      assert Dashes(OTHER[1..]) == 1 + Dashes(OTHER[1..][1..]);
    }
    forall i: nat
      ensures OTHER != Link(i)
    {
      LinkIs(i);
    }
    ChainFree(6, OTHER);
  }

  lemma OtherAdopts(w: World)
    requires Enabled(ChainComing(6), Begin(OTHER, 0)) && w == After(ChainComing(6), Begin(OTHER, 0))
    ensures Enabled(w, Adopt(OTHER, Link(0)))
  {
    ChainHeight();
    OtherApart();
    hide Link, ChainNotes, Tallest, Minted, Dashes, Pow10;
    assert w.note == ChainNotes(6) && OTHER !in w.note && Link(0) !in w.note;
    assert Counted(w.note, OTHER, MAX_DEPTH) == 0;
    assert Children(w, OTHER) == {} && ComingOf(w, OTHER) == {};
    assert Link(0) in ChainWorld(6).live;
    RootOfClimbs(w.note, OTHER, 0);
  }

  lemma OtherApart()
    ensures OTHER !in ChainNotes(6) && Link(0) !in ChainNotes(6) && OTHER !in ChainNotes(6).Values
    ensures forall i: nat :: OTHER != Link(i)
  {
    forall i: nat
      ensures OTHER != Link(i) && (Link(i) == Link(0) ==> i == 0)
    {
      LinkIs(i);
    }
    ChainNote(6, OTHER);
    ChainNote(6, Link(0));
    if OTHER in ChainNotes(6).Values {
      ChainValues(6, OTHER);
    }
  }

  // ---- A run with nine children ------------------------------------------------------------------

  const HEAD := Link(0)

  ghost predicate Named(w: World, x: Id) {
    x in w.live || x in w.coming || x in w.note.Values || exists c :: c in w.coming && w.coming[c].parent == x
  }

  ghost predicate NamedUpTo(w: World, k: nat) {
    forall x :: Named(w, x) ==> exists i: nat :: i <= k && x == Link(i)
  }

  /** A main with `n` children up, and one more named first whose hold has lapsed. */
  ghost predicate Family(w: World, n: nat, late: Id) {
    && HEAD in w.live && HEAD !in w.note && HEAD in w.run
    && |Children(w, HEAD)| == n && ComingOf(w, HEAD) == {}
    && late in w.coming && w.coming[late].parent == HEAD && !w.coming[late].counts
    && NamedUpTo(w, n + 1)
  }

  lemma NextIsFree(w: World, k: nat)
    requires NamedUpTo(w, k)
    ensures Free(w, Link(k + 1))
  {
    hide Dashes, Link;
    LinkIs(k + 1);
    var x := Link(k + 1);
    assert !Named(w, x);
    forall c | c in w.coming
      ensures w.coming[c].parent != x
    {
      assert Named(w, w.coming[c].parent);
    }
  }

  lemma HeadMayMint(w: World, n: nat, late: Id)
    requires Family(w, n, late) && n < MAX_CHILDREN
    ensures Enabled(w, Mint(HEAD, Link(n + 2)))
  {
    hide Dashes, Link, NamedUpTo, Free;
    NextIsFree(w, n + 1);
  }

  lemma NamedAfter(w: World, w': World, k: nat, c: Id)
    requires NamedUpTo(w, k) && c == Link(k + 1) && forall x :: Named(w', x) ==> Named(w, x) || x == c
    ensures NamedUpTo(w', k + 1)
  {
    hide Link, Named;
    forall x | Named(w', x)
      ensures exists i: nat :: i <= k + 1 && x == Link(i)
    {
      if x != c {
        var i: nat :| i <= k && x == Link(i);
      }
    }
  }

  lemma MintNames(w: World, q: Id, c: Id, x: Id)
    requires Enabled(w, Mint(q, c)) && Named(After(w, Mint(q, c)), x)
    ensures Named(w, x) || x == c
  {
    hide MayMint, Free;
  }

  lemma ComeUpNames(w: World, c: Id, x: Id)
    requires c in w.coming && Named(After(w, ComeUp(c)), x)
    ensures Named(w, x)
  {
    ValuesAfter(w, ComeUp(c));
  }

  /** One more child, named and come up at once. */
  lemma FamilyGrows(ws: seq<World>, n: nat, late: Id) returns (more: seq<World>)
    requires IsRun(ws) && Family(ws[|ws| - 1], n, late) && n < MAX_CHILDREN
    ensures IsRun(more) && Family(more[|more| - 1], n + 1, late)
  {
    hide Inv, Link, Dashes, Next, NamedUpTo;
    var w, c := ws[|ws| - 1], Link(n + 2);
    HeadMayMint(w, n, late);
    more := Onward(ws, Mint(HEAD, c));
    var mid := more[|more| - 1];
    more := Onward(more, ComeUp(c));
    RunKeepsInv(ws);
    InvIsFiled(w);
    StepKeepsFiled(w, Mint(HEAD, c));
    OneMoreChild(w, c, n, late);
    var last := more[|more| - 1];
    forall x | Named(last, x)
      ensures Named(w, x) || x == c
    {
      ComeUpNames(mid, c, x);
      MintNames(w, HEAD, c, x);
    }
    NamedAfter(w, last, n + 1, c);
  }

  lemma InvIsFiled(w: World)
    requires Inv(w)
    ensures Filed(w)
  {
  }

  lemma OneMoreChild(w: World, c: Id, n: nat, late: Id)
    requires Filed(w) && Family(w, n, late) && Enabled(w, Mint(HEAD, c))
    ensures var mid := After(w, Mint(HEAD, c)); var last := After(mid, ComeUp(c));
            && HEAD in last.live && HEAD !in last.note && HEAD in last.run
            && |Children(last, HEAD)| == n + 1 && ComingOf(last, HEAD) == {}
            && late in last.coming && last.coming[late].parent == HEAD && !last.coming[late].counts
  {
    hide Link, Dashes, NamedUpTo, MayMint, Children, ComingOf;
    var mid := After(w, Mint(HEAD, c));
    MintCounts(w, HEAD, c, HEAD);
    StepKeepsFiled(w, Mint(HEAD, c));
    ComeUpCounts(mid, c, HEAD);
    assert |Children(w, HEAD) + {c}| == n + 1;
    assert ComingOf(After(mid, ComeUp(c)), HEAD) == {};
  }

  lemma FamilyBegins() returns (ws: seq<World>, late: Id)
    ensures IsRun(ws) && Family(ws[|ws| - 1], 0, late)
  {
    ws := ChainReached(0);
    late := Link(1);
    ChainMinted(0);
    ws := Onward(ws, Mint(Link(0), late));
    ws := Onward(ws, Lapse(late));
    ChainWorldIs();
    var w := ws[|ws| - 1];
    forall x | Named(w, x)
      ensures exists i: nat :: i <= 1 && x == Link(i)
    {
      assert x == Link(0) || x == Link(1);
    }
    LinkIs(0);
    assert Children(w, HEAD) == {} && ComingOf(w, HEAD) == {};
  }

  lemma ChainWorldIs()
    ensures ChainWorld(0).live == {Link(0)} && ChainWorld(0).note == map[] && ChainWorld(0).coming == map[]
    ensures ChainWorld(0).run.Keys == {Link(0)}
  {
  }

  /** A run that ends with a session of nine children: one named first and held up until its hold had
      lapsed, eight named and come up meanwhile, and the first coming up after all. */
  lemma NineChildrenHappen() returns (ws: seq<World>)
    ensures IsRun(ws) && HEAD in ws[|ws| - 1].live && |Children(ws[|ws| - 1], HEAD)| == 9
  {
    hide Next, Family, Link;
    var late;
    ws, late := FamilyBegins();
    for n := 0 to MAX_CHILDREN
      invariant IsRun(ws) && Family(ws[|ws| - 1], n, late)
    {
      ws := FamilyGrows(ws, n, late);
    }
    ws := LateComes(ws, late);
  }

  lemma LateComes(ws: seq<World>, late: Id) returns (more: seq<World>)
    requires IsRun(ws) && Family(ws[|ws| - 1], MAX_CHILDREN, late)
    ensures IsRun(more) && HEAD in more[|more| - 1].live && |Children(more[|more| - 1], HEAD)| == 9
  {
    hide Inv, Link, Dashes, Next, NamedUpTo, Children, ComingOf;
    var w := ws[|ws| - 1];
    RunKeepsInv(ws);
    InvIsFiled(w);
    HeadIsNotComing(w, late);
    ComeUpCounts(w, late, HEAD);
    assert |Children(w, HEAD) + {late}| == 9;
    more := Onward(ws, ComeUp(late));
  }

  lemma HeadIsNotComing(w: World, late: Id)
    requires Filed(w) && late in w.coming && HEAD in w.live
    ensures HEAD != late
  {
    hide Link;
  }
}
