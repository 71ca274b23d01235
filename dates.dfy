/** Time as the model sees it: instants are integer milliseconds since the
    epoch, ISO date strings are read by a parsing oracle that yields no instant
    for an unparseable string, and `differenceInDays` counts whole days. */
module Dates {

  const MsPerDay: int := 86_400_000

  /** The number of full days from `earlier` to `later`, negative when
      `later` comes first; the partial day is dropped (rounding toward zero). */
  function DifferenceInDays(later: int, earlier: int): (r: int)
    ensures later >= earlier ==> r * MsPerDay <= later - earlier < (r + 1) * MsPerDay
    ensures later < earlier ==> (r - 1) * MsPerDay < later - earlier <= r * MsPerDay
  {
    var d := later - earlier;
    if d >= 0 then d / MsPerDay else -((-d) / MsPerDay)
  }

  /** A positive day difference means at least one whole day has passed. */
  lemma DifferencePositive(later: int, earlier: int)
    ensures DifferenceInDays(later, earlier) > 0 <==> later - earlier >= MsPerDay
  {
  }

  /** The day difference is antisymmetric. */
  lemma DifferenceAntisymmetric(later: int, earlier: int)
    ensures DifferenceInDays(earlier, later) == -DifferenceInDays(later, earlier)
  {
  }
}
