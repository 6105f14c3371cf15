/** Path costs as the search stores them: a whole number of moves, or infinity for a cell
    the search has not reached. */
module Scores {

  datatype Score = Finite(v: nat) | Infinite

  /** The `<` of the search's score tables: every number is below infinity, and infinity is
      below nothing. */
  predicate Less(a: Score, b: Score)
  {
    a.Finite? && (b.Infinite? || a.v < b.v)
  }

  /** Less is a strict total order with infinity on top: no score is below itself, it is
      transitive, any two distinct scores are ordered, and it is AtMost without equality. */
  lemma LessOrder(a: Score, b: Score, c: Score)
    ensures !Less(a, a)
    ensures Less(a, b) && Less(b, c) ==> Less(a, c)
    ensures a != b ==> Less(a, b) || Less(b, a)
    ensures Less(a, b) <==> AtMost(a, b) && a != b
    ensures a.Finite? ==> Less(a, Infinite)
    ensures !Less(Infinite, b)
  {
  }

  predicate AtMost(a: Score, b: Score)
  {
    b.Infinite? || (a.Finite? && a.v <= b.v)
  }

  /** A score plus a whole number; infinity absorbs it. */
  function Plus(a: Score, k: nat): Score
  {
    if a.Finite? then Finite(a.v + k) else Infinite
  }
}
