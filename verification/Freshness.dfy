/** Freshness classes, computed from cutoffs by the store and from ages by the query source. */
module Freshness {
  import opened Wrappers

  datatype Class = Fresh | Stale | Expired

  datatype Cutoffs = Cutoffs(freshAfter: int, expiredAfter: int)

  function Saturating(n: int): int {
    if n < MIN_I64 then MIN_I64 else if n > MAX_I64 then MAX_I64 else n
  }

  /** Cutoffs of a schedule at an evaluation time, clamped to 64 bits at every step. */
  function CutoffsOf(intervalMillis: int, evaluatedAt: int): Cutoffs {
    var interval := if intervalMillis <= MAX_I64 then intervalMillis else MAX_I64;
    var triple := match Checked(interval * 3) case Some(n) => n case None => MAX_I64;
    Cutoffs(Saturating(evaluatedAt - interval), Saturating(evaluatedAt - triple))
  }

  /** The store's class. */
  function ClassifyMillis(lastSeenAt: int, cutoffs: Cutoffs): Class {
    if lastSeenAt >= cutoffs.freshAfter then Fresh
    else if lastSeenAt >= cutoffs.expiredAfter then Stale
    else Expired
  }

  /** The query source's class; nothing for a zero interval. The products fit 128 bits. */
  function ClassifyByAge(lastSeenAt: int, intervalMillis: int, evaluatedAt: int): Option<Class> {
    if intervalMillis == 0 then None
    else
      var difference := evaluatedAt - lastSeenAt;
      var age := if difference > 0 then difference else 0;
      Some(if age <= intervalMillis then Fresh else if age <= intervalMillis * 3 then Stale else Expired)
  }

  /** Both classes agree for every positive 64-bit interval, however far it saturates: fresh up to one interval of age, expired
      beyond three. The cutoffs are never inverted. */
  lemma ClassesAgree(lastSeenAt: int, intervalMillis: int, evaluatedAt: int)
    requires 0 <= lastSeenAt <= MAX_I64 && 0 <= evaluatedAt <= MAX_I64 && 1 <= intervalMillis <= MAX_U64
    ensures ClassifyByAge(lastSeenAt, intervalMillis, evaluatedAt)
         == Some(ClassifyMillis(lastSeenAt, CutoffsOf(intervalMillis, evaluatedAt)))
    ensures var (seen, age) := (ClassifyMillis(lastSeenAt, CutoffsOf(intervalMillis, evaluatedAt)), evaluatedAt - lastSeenAt);
            && (seen == Fresh <==> age <= intervalMillis) && (seen == Expired <==> 3 * intervalMillis < age)
    ensures CutoffsOf(intervalMillis, evaluatedAt).expiredAfter <= CutoffsOf(intervalMillis, evaluatedAt).freshAfter
  {
  }
}
