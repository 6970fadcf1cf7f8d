/**
  The name-similarity score of the recommendation view: both names lose
  their whitespace and are lower-cased; equal names score 100, containment
  either way scores 80, anything else scores the length of the common
  leading run.
*/
module Similarity {
  import opened Text

  /** A name as the scorer compares it: whitespace removed, letters lower-cased. */
  function Normalize(s: string): string {
    Lower(RemoveSpaces(s))
  }

  function Min(a: nat, b: nat): nat {
    if a < b then a else b
  }

  /** The length of the longest common leading run of `a` and `b`. */
  function CommonPrefix(a: string, b: string): (k: nat)
    ensures k <= Min(|a|, |b|) && a[..k] == b[..k]
    ensures k < Min(|a|, |b|) ==> a[k] != b[k]
  {
    if a == [] || b == [] || a[0] != b[0] then 0 else 1 + CommonPrefix(a[1..], b[1..])
  }

  /** The score `getSimilarity(a, b)` returns. */
  function Score(a: string, b: string): int {
    var na, nb := Normalize(a), Normalize(b);
    if na == nb then 100
    else if Contains(na, nb) || Contains(nb, na) then 80
    else CommonPrefix(na, nb)
  }

  /** The run `CommonPrefix` measures is the only one that stops where it does. */
  lemma {:induction false} CommonPrefixUnique(a: string, b: string, k: nat)
    requires k <= Min(|a|, |b|) && a[..k] == b[..k]
    requires k < Min(|a|, |b|) ==> a[k] != b[k]
    ensures CommonPrefix(a, b) == k
  {
    if k > 0 {
      assert a[0] == a[..k][0] == b[..k][0] == b[0];
      assert a[1..][..k - 1] == a[..k][1..] == b[..k][1..] == b[1..][..k - 1];
      CommonPrefixUnique(a[1..], b[1..], k - 1);
    }
  }

  /** `getSimilarity`: the common run is counted by a loop that stops at the first mismatch. */
  method GetSimilarity(a: string, b: string) returns (score: int)
    ensures score == Score(a, b)
  {
    var normA := Lower(RemoveSpaces(a));
    var normB := Lower(RemoveSpaces(b));
    if normA == normB {
      return 100;
    }
    if Contains(normA, normB) || Contains(normB, normA) {
      return 80;
    }
    var common := 0;
    var n := Min(|normA|, |normB|);
    for i := 0 to n
      invariant common == i && normA[..i] == normB[..i]
    {
      if normA[i] == normB[i] {
        common := common + 1;
      } else {
        break;
      }
    }
    CommonPrefixUnique(normA, normB, common);
    return common;
  }

  lemma {:induction false} CommonPrefixSymmetric(a: string, b: string)
    ensures CommonPrefix(a, b) == CommonPrefix(b, a)
  {
    if a != [] && b != [] && a[0] == b[0] {
      CommonPrefixSymmetric(a[1..], b[1..]);
    }
  }

  /** Swapping the two names never changes the score. */
  lemma ScoreSymmetric(a: string, b: string)
    ensures Score(a, b) == Score(b, a)
  {
    CommonPrefixSymmetric(Normalize(a), Normalize(b));
  }

  /**
    The three bands of the score: 100 for equal normalised names, 80 for
    containment, and otherwise the common leading run, which is then
    shorter than both normalised names.
  */
  lemma ScoreBands(a: string, b: string)
    ensures Normalize(a) == Normalize(b) ==> Score(a, b) == 100
    ensures Normalize(a) != Normalize(b) && (Contains(Normalize(a), Normalize(b)) || Contains(Normalize(b), Normalize(a)))
      ==> Score(a, b) == 80
    ensures !Contains(Normalize(a), Normalize(b)) && !Contains(Normalize(b), Normalize(a)) ==>
      var k := Score(a, b);
      0 <= k < Min(|Normalize(a)|, |Normalize(b)|) && Normalize(a)[..k] == Normalize(b)[..k]
  {
  }
}
