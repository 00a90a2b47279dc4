/** Small shared vocabulary: optional values, results, and JavaScript
    truthiness of an optional string. */
module Base {

  /** An absent (`undefined`/`null`) or present value. */
  datatype Option<+T> = None | Some(value: T)

  /** A value or the error that prevented it. */
  datatype Result<+T, +E> = Ok(value: T) | Err(error: E)

  /** JavaScript truthiness of a string that may be missing: only a present,
      non-empty string is truthy. */
  predicate Truthy(s: Option<string>) {
    s.Some? && s.value != ""
  }

  /** No element occurs twice. */
  predicate Distinct<T(==)>(xs: seq<T>) {
    forall i, j :: 0 <= i < j < |xs| ==> xs[i] != xs[j]
  }

  /** Dropping the head of a distinct sequence leaves a distinct tail that
      does not contain the head. */
  lemma DistinctTail<T>(xs: seq<T>)
    requires |xs| > 0 && Distinct(xs)
    ensures Distinct(xs[1..]) && xs[0] !in xs[1..]
  {
    forall k | 0 <= k < |xs| - 1 ensures xs[1..][k] != xs[0] {
      assert xs[1..][k] == xs[k + 1];
    }
  }
}
