/** The places of a mask that carry one of its two marks, numbered from the front. */
module Ranks {
  /** How many of the first m places carry the mark. */
  function Rank(marks: seq<bool>, mark: bool, m: nat): (r: nat)
    requires m <= |marks|
    ensures r <= m
  {
    if m == 0 then 0 else Rank(marks, mark, m - 1) + if marks[m - 1] == mark then 1 else 0
  }

  lemma {:induction false} RankRises(marks: seq<bool>, mark: bool, i: nat, m: nat)
    requires i < m <= |marks| && marks[i] == mark
    ensures Rank(marks, mark, i) < Rank(marks, mark, m)
  {
    if i + 1 < m {
      RankRises(marks, mark, i, m - 1);
    }
  }
}
