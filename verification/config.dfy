/** The limit settings of a scope and the targets of a model, as configuration loading leaves them. */
module Config {

  /** One limit block; a zero or negative setting switches that limit off. */
  datatype Limits = Limits(requestsPerMinute: real, burst: int, maxConcurrent: int)

  const NO_LIMITS := Limits(0.0, 0, 0)

  /** Fills in the burst of a rate limit that names none. */
  function Defaults(l: Limits): Limits {
    if l.requestsPerMinute > 0.0 && l.burst == 0 then l.(burst := 1) else l
  }

  /** The checks a loaded limit block must pass. */
  predicate Validated(l: Limits) {
    && l.requestsPerMinute >= 0.0 && l.burst >= 0 && l.maxConcurrent >= 0
    && !(l.requestsPerMinute == 0.0 && l.burst != 0)
  }

  /** What the gateway relies on: nothing is negative and a rate limit can hold at least one token. */
  predicate Sound(l: Limits) {
    && l.requestsPerMinute >= 0.0 && l.burst >= 0 && l.maxConcurrent >= 0
    && (l.requestsPerMinute > 0.0 <==> l.burst >= 1)
  }

  /**
   Loading fills in a burst of 1 where a rate limit names none, and nothing else. It accepts a limit block exactly when
   nothing in it is negative and a burst comes with a rate; and what it accepts is sound.
   */
  lemma LoadedLimitsAreSound(l: Limits)
    ensures Defaults(l) == if l.requestsPerMinute > 0.0 && l.burst == 0 then Limits(l.requestsPerMinute, 1, l.maxConcurrent) else l
    ensures Validated(Defaults(l)) <==>
              l.requestsPerMinute >= 0.0 && l.burst >= 0 && l.maxConcurrent >= 0 && (l.burst > 0 ==> l.requestsPerMinute > 0.0)
    ensures Validated(Defaults(l)) <==> Sound(Defaults(l))
    ensures Sound(NO_LIMITS)
    ensures Defaults(Defaults(l)) == Defaults(l)
  {
  }
}
