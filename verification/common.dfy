/** Small shared vocabulary: optional values and the `min` of two counts. */
module Common {

  /** An optional value, as Rust's `Option`. */
  datatype Option<+T> = None | Some(value: T)

  /** `std::cmp::min` on two unsigned counts. */
  function Min(a: nat, b: nat): (m: nat)
    ensures m <= a && m <= b
    ensures m == a || m == b
  {
    if a <= b then a else b
  }
}

/** The process-wide configuration read once at start-up from `settings.json`. */
module Config {

  /** `media_dir`, `password` and `display_count`; the count is a `usize`, so never negative. */
  datatype Settings = Settings(mediaDir: string, password: string, displayCount: nat)
}
