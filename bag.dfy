/**
 * The 7-bag randomiser and the lookahead queue of game.js (`fillBag`,
 * `getNextFromBag`, `fillNextPieces`). The random order of a refill is a
 * parameter `perm`; the bag is consumed from its end (`Array.pop`).
 */
module Bag {
  import opened Pieces

  /** `perm` is an ordering of the seven kinds: seven entries, every kind among them. */
  predicate IsPermutation(perm: seq<PieceType>) {
    |perm| == 7 && forall t: PieceType :: t in perm
  }

  /** The kinds occurring in a sequence. */
  function Elements(s: seq<PieceType>): (e: set<PieceType>)
    ensures forall t :: t in e <==> t in s
    ensures |e| <= |s|
  {
    if s == [] then {} else Elements(s[..|s| - 1]) + {s[|s| - 1]}
  }

  /** There are seven kinds. */
  lemma SevenKinds(e: set<PieceType>)
    requires forall t: PieceType :: t in e
    ensures |e| >= 7
  {
    var all: set<PieceType> := {I, O, T, S, Z, J, L};
    assert |all| == 7;
    forall t: PieceType
      ensures t in all
    {
      match t
      case I =>
      case O =>
      case T =>
      case S =>
      case Z =>
      case J =>
      case L =>
    }
    assert e == all;
  }

  /** Pigeonhole: no kind occurs twice in a permutation. */
  lemma NoRepeat(perm: seq<PieceType>, i: int, j: int)
    requires IsPermutation(perm) && 0 <= i < j < 7
    ensures perm[i] != perm[j]
  {
    if perm[i] == perm[j] {
      var rest := perm[..j] + perm[j + 1..];
      forall t: PieceType
        ensures t in Elements(rest)
      {
        assert t in perm;
        var k :| 0 <= k < 7 && perm[k] == t;
        if k < j {
          assert rest[k] == t;
        } else if k > j {
          assert rest[k - 1] == t;
        } else {
          assert rest[i] == t;
        }
      }
      SevenKinds(Elements(rest));
      assert false;
    }
  }

  /** The seven entries of a permutation are pairwise distinct. */
  lemma PermutationDistinct(perm: seq<PieceType>)
    requires IsPermutation(perm)
    ensures forall i, j | 0 <= i < j < 7 :: perm[i] != perm[j]
  {
    forall i, j | 0 <= i < j < 7
      ensures perm[i] != perm[j]
    {
      NoRepeat(perm, i, j);
    }
  }

  /** Minimum length of the lookahead queue kept by `fillNextPieces`. */
  const QueueLength := 3

  /** `getNextFromBag`: refill with `perm` if the bag is empty, then pop its last kind. */
  function Next(bag: seq<PieceType>, perm: seq<PieceType>): (r: (PieceType, seq<PieceType>))
    requires IsPermutation(perm)
  {
    var b := if bag == [] then perm else bag;
    (b[|b| - 1], b[..|b| - 1])
  }

  /** The kinds handed out by `k` successive `getNextFromBag` calls. */
  function Draws(bag: seq<PieceType>, perm: seq<PieceType>, k: nat): seq<PieceType>
    requires IsPermutation(perm)
    decreases k
  {
    if k == 0 then []
    else
      var (t, rest) := Next(bag, perm);
      [t] + Draws(rest, perm, k - 1)
  }

  /** The queue and bag after `fillNextPieces`. */
  function Fill(queue: seq<PieceType>, bag: seq<PieceType>, perm: seq<PieceType>)
    : (r: (seq<PieceType>, seq<PieceType>))
    requires IsPermutation(perm)
    ensures |r.0| == if |queue| < QueueLength then QueueLength else |queue|
    ensures r.0 == queue + Draws(bag, perm, |r.0| - |queue|)
    decreases QueueLength - |queue|
  {
    if |queue| >= QueueLength then (queue, bag)
    else
      var (t, rest) := Next(bag, perm);
      Fill(queue + [t], rest, perm)
  }

  /** The bag is an unconsumed front part of the permutation it was last filled with. */
  predicate BagFrom(bag: seq<PieceType>, source: seq<PieceType>) {
    IsPermutation(source) && |bag| <= |source| && bag == source[..|bag|]
  }

  /** A pop keeps the bag a front part of its own permutation, or of `perm` after a refill. */
  lemma {:induction false} NextKeepsBag(bag: seq<PieceType>, source: seq<PieceType>, perm: seq<PieceType>)
    requires BagFrom(bag, source) && IsPermutation(perm)
    ensures BagFrom(Next(bag, perm).1, if bag == [] then perm else source)
  {
    var b := if bag == [] then perm else bag;
    var s := if bag == [] then perm else source;
    assert b == s[..|b|];
    assert b[..|b| - 1] == s[..|b| - 1];
  }

  /** Reversal of a sequence. */
  function Reverse(s: seq<PieceType>): (r: seq<PieceType>)
    ensures |r| == |s|
  {
    if s == [] then [] else Reverse(s[1..]) + [s[0]]
  }

  /** Entry `i` of the reversal is entry `|s| - 1 - i` of the original. */
  lemma {:induction false} ReverseAt(s: seq<PieceType>)
    ensures forall i | 0 <= i < |s| :: Reverse(s)[i] == s[|s| - 1 - i]
  {
    if s != [] {
      ReverseAt(s[1..]);
    }
  }

  /** Drawing `k` kinds from a non-empty bag of at least `k` kinds takes them from its end. */
  lemma {:induction false} DrawsFromEnd(bag: seq<PieceType>, perm: seq<PieceType>, k: nat)
    requires IsPermutation(perm) && k <= |bag|
    ensures Draws(bag, perm, k) == Reverse(bag[|bag| - k..])
  {
    if k > 0 {
      var n := |bag|;
      assert Next(bag, perm) == (bag[n - 1], bag[..n - 1]);
      DrawsFromEnd(bag[..n - 1], perm, k - 1);
      var tail := bag[n - k..];
      assert tail[..k - 1] == bag[..n - 1][n - 1 - (k - 1)..];
      assert tail[k - 1] == bag[n - 1];
      ReverseLast(tail);
    }
  }

  /** The reversal starts with the last element. */
  lemma {:induction false} ReverseLast(s: seq<PieceType>)
    requires |s| > 0
    ensures Reverse(s) == [s[|s| - 1]] + Reverse(s[..|s| - 1])
  {
    if |s| > 1 {
      ReverseLast(s[1..]);
      assert s[1..][..|s| - 2] == s[..|s| - 1][1..];
      assert s[..|s| - 1] == [s[0]] + s[..|s| - 1][1..];
    } else {
      assert s[..|s| - 1] == [];
    }
  }

  /**
   * The 7-bag property: the seven draws that follow a refill hand out every
   * kind, each exactly once.
   */
  lemma SevenDrawsFromEmptyBag(perm: seq<PieceType>)
    requires IsPermutation(perm)
    ensures var d := Draws([], perm, 7);
      && |d| == 7
      && (forall t: PieceType :: t in d)
      && (forall i, j | 0 <= i < j < 7 :: d[i] != d[j])
  {
    DrawsFromEnd(perm, perm, 7);
    assert Draws([], perm, 7) == Draws(perm, perm, 7) by {
      assert Next([], perm) == Next(perm, perm);
    }
    assert perm[|perm| - 7..] == perm;
    var d := Draws([], perm, 7);
    ReverseAt(perm);
    PermutationDistinct(perm);
    forall t: PieceType
      ensures t in d
    {
      assert t in perm;
      var k :| 0 <= k < 7 && perm[k] == t;
      assert d[6 - k] == t;
    }
  }
}
