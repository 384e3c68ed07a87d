/** `min_max` and the result order shared by the database queries. */
module DatabaseUtil {
  import opened Ordering

  /** `Random` carries an `i32` seed. */
  datatype Order = LatestFirst | Random(seed: int)

  /** The two values in ascending order (used to store each unordered pair of
      sticker files once). Strings compare as Rust's `Ord` for `String` does. */
  function MinMax(a: string, b: string): (r: (string, string))
    ensures !Less(r.1, r.0)
    ensures r == (a, b) || r == (b, a)
    ensures Less(a, b) ==> r == (a, b)
  {
    if Less(a, b) then
      LessAsymmetric(a, b);
      (a, b)
    else (b, a)
  }

  /** The pair does not depend on the argument order. */
  lemma MinMaxSymmetric(a: string, b: string)
    ensures MinMax(a, b) == MinMax(b, a)
  {
    LessTotal(a, b);
  }
}
