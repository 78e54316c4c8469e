/** Parent notes as a map from an id to the id its `.parent` note names, and walks up them.
    Nothing here assumes the notes are free of rings. */
module Chains {
  import opened Options

  type Id = string
  type Notes = map<Id, Id>

  /** Who stands `n` notes above `x`, if the walk gets that far. */
  function Up(notes: Notes, x: Id, n: nat): Option<Id>
    decreases n
  {
    if n == 0 then Some(x)
    else if x in notes then Up(notes, notes[x], n - 1)
    else None
  }

  /** `x` has exactly `d` ancestors and the last of them answers to nobody. */
  ghost predicate HasDepth(notes: Notes, x: Id, d: nat) {
    Up(notes, x, d).Some? && Up(notes, x, d).value !in notes
  }

  /** The walk up from `x` stops; false exactly for an id whose walk enters a ring. */
  ghost predicate Ends(notes: Notes, x: Id) {
    exists d: nat :: HasDepth(notes, x, d)
  }

  /** No walk from anywhere enters a ring. */
  ghost predicate Forest(notes: Notes) {
    forall x :: Ends(notes, x)
  }

  ghost function Depth(notes: Notes, x: Id): (d: nat)
    requires Ends(notes, x)
    ensures HasDepth(notes, x, d)
  {
    var d: nat :| HasDepth(notes, x, d);
    d
  }

  /** Who `x` hangs under that answers to nobody, `x` itself when it is such a one. */
  ghost function Top(notes: Notes, x: Id): Id
    requires Ends(notes, x)
  {
    Up(notes, x, Depth(notes, x)).value
  }

  /** `y` is `x` or stands somewhere above it. */
  ghost predicate Below(notes: Notes, x: Id, y: Id) {
    exists n: nat :: Up(notes, x, n) == Some(y)
  }

  lemma {:induction false} UpAdds(notes: Notes, x: Id, a: nat, b: nat)
    requires Up(notes, x, a).Some?
    ensures Up(notes, x, a + b) == Up(notes, Up(notes, x, a).value, b)
    decreases a
  {
    if a > 0 {
      UpAdds(notes, notes[x], a - 1, b);
    }
  }

  /** A walk that gets `n` notes up got every shorter distance up. */
  lemma {:induction false} UpShorter(notes: Notes, x: Id, m: nat, n: nat)
    requires m <= n && Up(notes, x, n).Some?
    ensures Up(notes, x, m).Some?
    ensures m < n ==> Up(notes, x, m).value in notes
    decreases m
  {
    if m > 0 {
      UpShorter(notes, notes[x], m - 1, n - 1);
    }
  }

  lemma DepthUnique(notes: Notes, x: Id, d: nat, e: nat)
    requires HasDepth(notes, x, d) && HasDepth(notes, x, e)
    ensures d == e
  {
    if d < e {
      UpShorter(notes, x, d, e);
    } else if e < d {
      UpShorter(notes, x, e, d);
    }
  }

  lemma TopIs(notes: Notes, x: Id, d: nat)
    requires HasDepth(notes, x, d)
    ensures Ends(notes, x) && Depth(notes, x) == d && Some(Top(notes, x)) == Up(notes, x, d)
  {
    DepthUnique(notes, x, d, Depth(notes, x));
  }

  /** Below a note the depth is one more. */
  lemma DepthStep(notes: Notes, x: Id, d: nat)
    requires x in notes
    ensures HasDepth(notes, x, d + 1) <==> HasDepth(notes, notes[x], d)
  {
  }

  /** Every id met on a walk that stops has the rest of that walk as its own. */
  lemma DepthAbove(notes: Notes, x: Id, d: nat, n: nat)
    requires HasDepth(notes, x, d) && n <= d
    ensures Up(notes, x, n).Some?
    ensures HasDepth(notes, Up(notes, x, n).value, d - n)
    ensures Up(notes, Up(notes, x, n).value, d - n) == Up(notes, x, d)
  {
    UpShorter(notes, x, n, d);
    UpAdds(notes, x, n, d - n);
  }

  /** A walk that stops never meets one id twice. */
  lemma NoRepeat(notes: Notes, x: Id, d: nat, m: nat, n: nat)
    requires HasDepth(notes, x, d) && m < n <= d
    ensures Up(notes, x, m).Some? && Up(notes, x, n).Some? && Up(notes, x, m) != Up(notes, x, n)
  {
    DepthAbove(notes, x, d, m);
    DepthAbove(notes, x, d, n);
    if Up(notes, x, m) == Up(notes, x, n) {
      DepthUnique(notes, Up(notes, x, m).value, d - m, d - n);
    }
  }

  lemma BelowAdds(notes: Notes, x: Id, y: Id, z: Id)
    requires Below(notes, x, y) && Below(notes, y, z)
    ensures Below(notes, x, z)
  {
    var a: nat :| Up(notes, x, a) == Some(y);
    var b: nat :| Up(notes, y, b) == Some(z);
    UpAdds(notes, x, a, b);
  }

  /** Whoever is below an id other than itself is below that id through its own note. */
  lemma BelowStep(notes: Notes, x: Id, y: Id)
    ensures Below(notes, x, y) <==> x == y || (x in notes && Below(notes, notes[x], y))
  {
    if Below(notes, x, y) && x != y {
      var n: nat :| Up(notes, x, n) == Some(y);
      assert Up(notes, notes[x], n - 1) == Some(y);
    }
    if x == y {
      assert Up(notes, x, 0) == Some(y);
    } else if x in notes && Below(notes, notes[x], y) {
      var n: nat :| Up(notes, notes[x], n) == Some(y);
      assert Up(notes, x, n + 1) == Some(y);
    }
  }

  /** Whoever is below another id is below one of those that answer to it. */
  lemma BelowLast(notes: Notes, x: Id, y: Id) returns (z: Id)
    requires Below(notes, x, y) && x != y
    ensures z in notes && notes[z] == y && Below(notes, x, z)
  {
    var n: nat :| Up(notes, x, n) == Some(y);
    UpShorter(notes, x, n - 1, n);
    UpAdds(notes, x, n - 1, 1);
    z := Up(notes, x, n - 1).value;
    assert Up(notes, z, 1) == Some(notes[z]);
  }

  /** Where walks stop, standing below somebody is standing deeper. */
  lemma BelowIsDeeper(notes: Notes, x: Id, y: Id, dx: nat, dy: nat)
    requires Below(notes, x, y) && HasDepth(notes, x, dx) && HasDepth(notes, y, dy)
    ensures dy <= dx && Up(notes, x, dx - dy) == Some(y)
  {
    var n: nat :| Up(notes, x, n) == Some(y);
    if n > dx {
      UpShorter(notes, x, dx, n);
    }
    DepthAbove(notes, x, dx, n);
    DepthUnique(notes, y, dy, dx - n);
  }

  /** Two ids at one depth have nobody in common below them. */
  lemma BelowApart(notes: Notes, x: Id, y: Id, z: Id, d: nat)
    requires HasDepth(notes, y, d) && HasDepth(notes, z, d)
    requires Below(notes, x, y) && Below(notes, x, z)
    ensures y == z
  {
    var n: nat :| Up(notes, x, n) == Some(y);
    var m: nat :| Up(notes, x, m) == Some(z);
    UpAdds(notes, x, n, d);
    UpAdds(notes, x, m, d);
    DepthUnique(notes, x, n + d, m + d);
  }

  // ---- What one change to the notes does to every walk -------------------------------------

  /** As far as the old notes carried a walk, the new ones carry it to the same place. */
  lemma {:induction false} UpAfterHang(notes: Notes, r: Id, p: Id, x: Id, n: nat)
    requires r !in notes && Up(notes, x, n).Some?
    ensures Up(notes[r := p], x, n) == Up(notes, x, n)
    decreases n
  {
    if n > 0 {
      UpAfterHang(notes, r, p, notes[x], n - 1);
    }
  }

  /** Hanging a root `r` under `p`, where `p` is not itself under `r`: whoever hung under `r` now
      sits `dp + 1` deeper and under `p`'s top, and nobody else moved. */
  lemma DepthAfterHang(notes: Notes, r: Id, p: Id, dp: nat, x: Id, d: nat)
    requires r !in notes && HasDepth(notes, p, dp) && Up(notes, p, dp) != Some(r)
    requires HasDepth(notes, x, d)
    ensures Up(notes, x, d) != Some(r) ==>
              HasDepth(notes[r := p], x, d) && Up(notes[r := p], x, d) == Up(notes, x, d)
    ensures Up(notes, x, d) == Some(r) ==>
              && HasDepth(notes[r := p], x, d + 1 + dp)
              && Up(notes[r := p], x, d + 1 + dp) == Up(notes, p, dp)
  {
    var after := notes[r := p];
    UpAfterHang(notes, r, p, x, d);
    UpAfterHang(notes, r, p, p, dp);
    if Up(notes, x, d) == Some(r) {
      UpAdds(after, x, d, 1 + dp);
      assert Up(after, r, 1 + dp) == Up(after, p, dp);
    }
  }

  /** Taking a note away carries no walk further than it went before. */
  lemma {:induction false} DepthAfterCut(notes: Notes, z: Id, x: Id, d: nat) returns (e: nat)
    requires HasDepth(notes, x, d)
    ensures e <= d && HasDepth(notes - {z}, x, e)
    ensures Up(notes - {z}, x, e) == Up(notes, x, e)
    ensures e < d ==> Up(notes, x, e) == Some(z)
    decreases d
  {
    if x == z || x !in notes {
      e := 0;
    } else {
      DepthStep(notes, x, d - 1);
      var rest := DepthAfterCut(notes, z, notes[x], d - 1);
      e := rest + 1;
      DepthStep(notes - {z}, x, rest);
    }
  }

  lemma HangRootKeepsForest(notes: Notes, r: Id, p: Id)
    requires r !in notes && Forest(notes)
    ensures Forest(notes[r := p]) <==> !Below(notes, p, r)
  {
    var after := notes[r := p];
    assert Ends(notes, p);
    var dp: nat :| HasDepth(notes, p, dp);
    if Up(notes, p, dp) == Some(r) {
      UpAfterHang(notes, r, p, p, dp);
      RingNeverEnds(after, r, dp);
      assert Below(notes, p, r);
    } else {
      forall x
        ensures Ends(after, x)
      {
        assert Ends(notes, x);
        var d: nat :| HasDepth(notes, x, d);
        DepthAfterHang(notes, r, p, dp, x, d);
      }
      if Below(notes, p, r) {
        var n: nat :| Up(notes, p, n) == Some(r);
        assert HasDepth(notes, p, n);
        DepthUnique(notes, p, n, dp);
      }
    }
  }

  lemma CutKeepsForest(notes: Notes, z: Id)
    requires Forest(notes)
    ensures Forest(notes - {z})
  {
    forall x
      ensures Ends(notes - {z}, x)
    {
      assert Ends(notes, x);
      var d: nat :| HasDepth(notes, x, d);
      var e := DepthAfterCut(notes, z, x, d);
    }
  }

  lemma {:induction false} UpBeforeCut(notes: Notes, z: Id, x: Id, n: nat)
    requires Up(notes - {z}, x, n).Some?
    ensures Up(notes, x, n) == Up(notes - {z}, x, n)
    decreases n
  {
    if n > 0 {
      UpBeforeCut(notes, z, notes[x], n - 1);
    }
  }

  lemma {:induction false} BelowBeforeCut(notes: Notes, z: Id, x: Id, n: nat)
    requires Up(notes, x, n) == Some(z)
    ensures Below(notes - {z}, x, z)
    decreases n
  {
    BelowStep(notes - {z}, x, z);
    if x != z {
      BelowBeforeCut(notes, z, notes[x], n - 1);
    }
  }

  /** Whether `x` hangs under `z` does not turn on whom `z` itself answers to. */
  lemma BelowAfterCut(notes: Notes, z: Id, x: Id)
    ensures Below(notes - {z}, x, z) <==> Below(notes, x, z)
  {
    if Below(notes - {z}, x, z) {
      var n: nat :| Up(notes - {z}, x, n) == Some(z);
      UpBeforeCut(notes, z, x, n);
    }
    if Below(notes, x, z) {
      var n: nat :| Up(notes, x, n) == Some(z);
      BelowBeforeCut(notes, z, x, n);
    }
  }

  /** Writing the note of `r` keeps the notes free of rings exactly when `p` does not already hang under
      `r`, whomever `r` answered to before: which is what handing out a name some note still means comes
      down to. */
  lemma HangKeepsForest(notes: Notes, r: Id, p: Id)
    requires Forest(notes)
    ensures Forest(notes[r := p]) <==> !Below(notes, p, r)
  {
    CutKeepsForest(notes, r);
    BelowAfterCut(notes, r, p);
    HangRootKeepsForest(notes - {r}, r, p);
    assert (notes - {r})[r := p] == notes[r := p];
  }

  /** An id some way above itself has no depth. */
  lemma RingNeverEnds(notes: Notes, r: Id, n: nat)
    requires r in notes && Up(notes, notes[r], n) == Some(r)
    ensures !Ends(notes, r)
  {
    if Ends(notes, r) {
      var d: nat :| HasDepth(notes, r, d);
      assert Up(notes, r, n + 1) == Some(r);
      if n + 1 > d {
        UpShorter(notes, r, d, n + 1);
      } else {
        NoRepeat(notes, r, d, 0, n + 1);
      }
    }
  }
}
