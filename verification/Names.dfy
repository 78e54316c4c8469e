/** The names sessions are given: two different words of the Greek alphabet, picked by a number off the
    clock, and the search that goes on from there until one is free. */
module Names {
  import opened Options
  import opened Texts

  const WORDS := 24
  const NAMES := 552

  const GREEK: seq<string> := [
    "alpha", "beta", "gamma", "delta", "epsilon", "zeta", "eta", "theta", "iota", "kappa",
    "lambda", "mu", "nu", "xi", "omicron", "pi", "rho", "sigma", "tau", "upsilon", "phi", "chi",
    "psi", "omega"]

  function Word(at: nat): string {
    GREEK[at % WORDS]
  }

  /** The word a seed starts with, and how far round the second is from it. */
  function First(seed: nat): nat {
    seed % WORDS
  }

  function Apart(seed: nat): nat {
    1 + (seed / WORDS) % (WORDS - 1)
  }

  function FromSeed(seed: nat): string {
    Word(First(seed)) + "-" + Word(First(seed) + Apart(seed))
  }

  /** The name of an ordered pair of words. */
  function Pair(i: nat, j: nat): string
    requires i < WORDS && j < WORDS
  {
    GREEK[i] + "-" + GREEK[j]
  }

  // ---- The words ---------------------------------------------------------------------------------------

  /** A length and two letters tell the words apart. */
  function Code(w: string): nat
    requires |w| >= 2
  {
    |w| * 1_000_000 + w[0] as nat * 1000 + w[1] as nat
  }

  predicate Plain(w: string) {
    |w| >= 2 && '-' !in w
  }

  const CODES: seq<nat> := [
    5097108, 4098101, 5103097, 5100101, 7101112, 4122101, 3101116, 5116104, 4105111, 5107097,
    6108097, 2109117, 2110117, 2120105, 7111109, 2112105, 3114104, 5115105, 3116097, 7117112, 3112104, 3099104,
    3112115, 5111109]

  lemma WordsArePlain(i: nat)
    requires i < WORDS
    ensures Plain(GREEK[i]) && Code(GREEK[i]) == CODES[i]
  {
    if i < 12 {
      FirstHalf(i);
    } else {
      SecondHalf(i);
    }
  }

  lemma FirstHalf(i: nat)
    requires i < 12
    ensures Plain(GREEK[i]) && Code(GREEK[i]) == CODES[i]
  {
  }

  lemma SecondHalf(i: nat)
    requires 12 <= i < WORDS
    ensures Plain(GREEK[i]) && Code(GREEK[i]) == CODES[i]
  {
  }

  lemma CodesDiffer(i: nat, j: nat)
    requires i < WORDS && j < WORDS && CODES[i] == CODES[j]
    ensures i == j
  {
  }

  /** A pair's name says which pair: neither word holds a dash, and no two words are the same. */
  lemma PairSaysWhich(i: nat, j: nat, k: nat, l: nat)
    requires i < WORDS && j < WORDS && k < WORDS && l < WORDS
    ensures Pair(i, j) == Pair(k, l) <==> i == k && j == l
  {
    hide SplitOnce, Code, Plain;
    PairSplits(i, j);
    PairSplits(k, l);
    WordsArePlain(i);
    WordsArePlain(j);
    WordsArePlain(k);
    WordsArePlain(l);
    if Pair(i, j) == Pair(k, l) {
      CodesDiffer(i, k);
      CodesDiffer(j, l);
    }
  }

  lemma PairSplits(i: nat, j: nat)
    requires i < WORDS && j < WORDS
    ensures SplitOnce(Pair(i, j), '-') == Some((GREEK[i], GREEK[j]))
  {
    WordsArePlain(i);
    SplitsOnce(GREEK[i], GREEK[j], '-');
  }

  // ---- The seeds ---------------------------------------------------------------------------------------

  /** A seed is the round it is in, how far apart its words are, and its first word. */
  lemma SeedParts(seed: nat)
    ensures var a, b, q := First(seed), Apart(seed) - 1, seed / NAMES;
            seed == NAMES * q + WORDS * b + a && a < WORDS && b < WORDS - 1
  {
    var n := seed / 24;
    assert seed == 24 * n + seed % 24;
    assert n == 23 * (n / 23) + n % 23;
    RoundOf(seed);
  }

  lemma RoundOf(seed: nat)
    ensures seed / 24 / 23 == seed / 552
  {
    var n, a := seed / 24, seed % 24;
    var q, b := n / 23, n % 23;
    assert seed == 552 * q + (24 * b + a) && 0 <= 24 * b + a < 552;
  }

  lemma PartsOf(q: nat, b: nat, a: nat)
    requires a < WORDS && b < WORDS - 1
    ensures var seed := NAMES * q + WORDS * b + a;
            First(seed) == a && Apart(seed) == b + 1 && seed / NAMES == q && seed % NAMES == WORDS * b + a
  {
    var seed := 552 * q + 24 * b + a;
    var n := 23 * q + b;
    assert seed == 24 * n + a;
    assert seed / 24 == n && seed % 24 == a;
    assert n % 23 == b;
    assert 0 <= 24 * b + a < 552;
    assert seed / 552 == q && seed % 552 == 24 * b + a;
  }

  /** Which second word so far round from the first; never the first again. */
  function Second(a: nat, apart: nat): (j: nat)
    requires a < WORDS && 1 <= apart < WORDS
    ensures j < WORDS && j != a
  {
    (a + apart) % WORDS
  }

  /** And how far round one word is from another. */
  function Round(i: nat, j: nat): (apart: nat)
    requires i < WORDS && j < WORDS && i != j
    ensures 1 <= apart < WORDS && Second(i, apart) == j
  {
    if j > i then j - i else j + WORDS - i
  }

  lemma ApartBounds(seed: nat)
    ensures First(seed) < WORDS && 1 <= Apart(seed) < WORDS
  {
  }

  lemma SeedsPair(seed: nat)
    ensures First(seed) < WORDS && 1 <= Apart(seed) < WORDS
    ensures FromSeed(seed) == Pair(First(seed), Second(First(seed), Apart(seed)))
  {
    ApartBounds(seed);
    assert First(seed) % WORDS == First(seed);
  }

  lemma SecondSaysApart(a: nat, x: nat, y: nat)
    requires a < WORDS && 1 <= x < WORDS && 1 <= y < WORDS
    ensures Second(a, x) == Second(a, y) ==> x == y
  {
    assert (a + x) % 24 == (if a + x < 24 then a + x else a + x - 24);
    assert (a + y) % 24 == (if a + y < 24 then a + y else a + y - 24);
  }

  /** Two seeds give one name exactly when they are a whole number of rounds of 552 apart: the period
      is 552, and inside it no name comes twice. */
  lemma SameNameSameSeed(s: nat, t: nat)
    ensures FromSeed(s) == FromSeed(t) <==> s % NAMES == t % NAMES
  {
    hide Word, FromSeed, First, Apart, Second, Pair;
    SeedsPair(s);
    SeedsPair(t);
    SeedParts(s);
    SeedParts(t);
    PartsOf(s / NAMES, Apart(s) - 1, First(s));
    PartsOf(t / NAMES, Apart(t) - 1, First(t));
    PairSaysWhich(First(s), Second(First(s), Apart(s)), First(t), Second(First(t), Apart(t)));
    if First(s) == First(t) {
      SecondSaysApart(First(s), Apart(s), Apart(t));
    }
  }

  /** The names in their order: round after round through the first words, the second one word further
      round from the first in each, and from the top again after twenty-three. */
  lemma NamesInOrder(q: nat, b: nat, a: nat)
    requires a < 24 && b < 23
    ensures FromSeed(552 * q + 24 * b + a) == GREEK[a] + "-" + GREEK[(a + b + 1) % 24]
  {
    hide FromSeed, Pair;
    PartsOf(q, b, a);
    var seed := 552 * q + 24 * b + a;
    SeedsPair(seed);
    PairIs(a, Second(a, 1 + b));
  }

  lemma PairIs(i: nat, j: nat)
    requires i < WORDS && j < WORDS
    ensures Pair(i, j) == GREEK[i] + "-" + GREEK[j]
  {
  }

  /** The step at which a search starting anywhere comes to the pair. */
  function StepTo(from: nat, i: nat, j: nat): (step: nat)
    requires i < WORDS && j < WORDS && i != j
    ensures step < NAMES
  {
    (NAMES + WORDS * (Round(i, j) - 1) + i - from % NAMES) % NAMES
  }

  lemma StepArrives(from: nat, target: nat)
    requires target < NAMES
    ensures (from + (NAMES + target - from % NAMES) % NAMES) % NAMES == target
  {
    var r := from % 552;
    assert from == 552 * (from / 552) + r;
    if target >= r {
      assert (552 + target - r) % 552 == target - r;
      assert from + (target - r) == 552 * (from / 552) + target;
    } else {
      assert (552 + target - r) % 552 == 552 + target - r;
      assert from + (552 + target - r) == 552 * (from / 552 + 1) + target;
    }
  }

  /** Any 552 seeds on end give every ordered pair of different words: the names are exactly those. */
  lemma EveryPairComes(from: nat, i: nat, j: nat)
    requires i < WORDS && j < WORDS && i != j
    ensures FromSeed(from + StepTo(from, i, j)) == Pair(i, j)
  {
    hide FromSeed, Second, Pair, Round;
    var target := WORDS * (Round(i, j) - 1) + i;
    PartsOf(0, Round(i, j) - 1, i);
    StepArrives(from, target);
    assert target % NAMES == target;
    SameNameSameSeed(from + StepTo(from, i, j), target);
    SeedsPair(target);
  }

  /** A name is the name of some pair of different words. */
  predicate IsName(name: string) {
    exists i, j :: 0 <= i < WORDS && 0 <= j < WORDS && i != j && name == Pair(i, j)
  }

  lemma SeedsAreNames(seed: nat)
    ensures IsName(FromSeed(seed))
  {
    SeedsPair(seed);
  }

  /** An id has one dash, which is what keeps it apart from every run's name. */
  lemma OneDash(seed: nat)
    ensures Dashes(FromSeed(seed)) == 1
  {
    hide FromSeed, Plain, Code;
    SeedsPair(seed);
    var i, j := First(seed), Second(First(seed), Apart(seed));
    WordsArePlain(i);
    WordsArePlain(j);
    PlainHasNoDash(GREEK[i]);
    DashThen(GREEK[i], GREEK[j]);
    PlainHasNoDash(GREEK[j]);
  }

  lemma PlainHasNoDash(w: string)
    requires Plain(w)
    ensures '-' !in w && Dashes(w) == 0
  {
    NoDashes(w);
  }

  lemma {:induction false} DashThen(a: string, b: string)
    requires '-' !in a
    ensures Dashes(a + "-" + b) == 1 + Dashes(b)
  {
    if a == "" {
      assert (a + "-" + b)[1..] == b;
    } else {
      assert (a + "-" + b)[1..] == a[1..] + "-" + b;
      DashThen(a[1..], b);
    }
  }

  // ---- The search ----------------------------------------------------------------------------------------

  /** The name a search tries at each step. */
  function Tried(from: nat, step: nat): string {
    FromSeed(from + step)
  }

  predicate TakenUpTo(from: nat, step: nat, taken: seq<string>) {
    forall k :: 0 <= k < step ==> Tried(from, k) in taken
  }

  predicate AllTaken(taken: seq<string>) {
    forall i, j :: 0 <= i < WORDS && 0 <= j < WORDS && i != j ==> Pair(i, j) in taken
  }

  lemma TriedAll(from: nat, taken: seq<string>)
    requires TakenUpTo(from, NAMES, taken)
    ensures AllTaken(taken)
  {
    hide FromSeed, Pair, Round;
    forall i, j | 0 <= i < WORDS && 0 <= j < WORDS && i != j
      ensures Pair(i, j) in taken
    {
      EveryPairComes(from, i, j);
      assert Tried(from, StepTo(from, i, j)) in taken;
    }
  }

  lemma NotAllTaken(name: string, taken: seq<string>)
    requires IsName(name) && name !in taken
    ensures !AllTaken(taken)
  {
    hide Pair;
  }

  lemma NamesInAll(name: string, taken: seq<string>)
    requires IsName(name) && AllTaken(taken)
    ensures name in taken
  {
    hide Pair;
  }

  /** The first name from `from` on that is not taken, wherever the clock stands; the very first, and
      taken, only where all 552 are. */
  method FreeOf(from: nat, taken: seq<string>) returns (picked: string)
    ensures IsName(picked)
    ensures picked in taken <==> AllTaken(taken)
    ensures exists step :: 0 <= step < NAMES && picked == Tried(from, step) && TakenUpTo(from, step, taken)
  {
    hide IsName, AllTaken, FromSeed;
    var step := 0;
    while step < NAMES
      invariant 0 <= step <= NAMES && TakenUpTo(from, step, taken)
    {
      picked := FromSeed(from + step);
      SeedsAreNames(from + step);
      if picked !in taken {
        NotAllTaken(picked, taken);
        assert picked == Tried(from, step);
        return;
      }
      step := step + 1;
    }
    picked := FromSeed(from);
    SeedsAreNames(from);
    TriedAll(from, taken);
    NamesInAll(picked, taken);
    assert picked == Tried(from, 0);
  }

  // ---- Comparing secrets -----------------------------------------------------------------------------------

  /** Every byte looked at whichever way it goes, and still equal exactly when they are equal. */
  method Same(one: seq<bv8>, other: seq<bv8>) returns (same: bool)
    ensures same <==> one == other
  {
    if |one| != |other| {
      return false;
    }
    var seen: bv8 := 0;
    var n := 0;
    while n < |one|
      invariant 0 <= n <= |one|
      invariant seen == 0 <==> one[..n] == other[..n]
    {
      NoBits(seen, one[n], other[n]);
      assert one[..n + 1] == one[..n] + [one[n]] && other[..n + 1] == other[..n] + [other[n]];
      seen := seen | (one[n] ^ other[n]);
      n := n + 1;
    }
    assert one[..n] == one && other[..n] == other;
    return seen == 0;
  }

  lemma NoBits(seen: bv8, a: bv8, b: bv8)
    ensures seen | (a ^ b) == 0 <==> seen == 0 && a == b
  {
  }
}
