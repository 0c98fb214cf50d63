/** The four readiness categories and the threshold ladder that assigns one
    to the classifier's placement probability. */
module Readiness {

  /** Ordered from least to most ready. */
  datatype Category =
    | HighImprovement
    | ModerateImprovement
    | StrongReadiness
    | ExcellentReadiness

  const ModerateFrom: real := 0.20
  const StrongFrom: real := 0.50
  const ExcellentFrom: real := 0.80

  /** Position of a category on the readiness scale. */
  function Level(c: Category): nat {
    match c
    case HighImprovement => 0
    case ModerateImprovement => 1
    case StrongReadiness => 2
    case ExcellentReadiness => 3
  }

  /** The half-open probability band each category stands for. */
  predicate InBand(p: real, c: Category) {
    match c
    case HighImprovement => p < ModerateFrom
    case ModerateImprovement => ModerateFrom <= p < StrongFrom
    case StrongReadiness => StrongFrom <= p < ExcellentFrom
    case ExcellentReadiness => ExcellentFrom <= p
  }

  /** The ladder of comparisons applied to the probability, first match wins. */
  function Categorize(p: real): (c: Category)
    ensures InBand(p, c)
  {
    if p < 0.20 then HighImprovement
    else if p < 0.50 then ModerateImprovement
    else if p < 0.80 then StrongReadiness
    else ExcellentReadiness
  }

  /** The bands partition the reals: every probability lies in the band of
      the category it is given, and in no other band. */
  lemma CategorizeIsBand(p: real, c: Category)
    ensures Categorize(p) == c <==> InBand(p, c)
  {
  }

  /** A higher probability never yields a lower category. */
  lemma CategorizeMonotone(p: real, q: real)
    requires p <= q
    ensures Level(Categorize(p)) <= Level(Categorize(q))
  {
  }

  /** The category is the number of thresholds the probability reaches. */
  lemma LevelCountsThresholds(p: real)
    ensures Level(Categorize(p)) ==
      (if p >= ModerateFrom then 1 else 0)
      + (if p >= StrongFrom then 1 else 0)
      + (if p >= ExcellentFrom then 1 else 0)
  {
  }
}
