/** Outcome types shared by the models. */
module Prelude {
  datatype Option<+T> = None | Some(value: T)

  /** What a transaction reports: a value, or the error that rolled it back. */
  datatype Result<+T> = Ok(value: T) | Error(message: string)

  function Min(a: int, b: int): int { if a < b then a else b }

  function Max(a: int, b: int): int { if a < b then b else a }

  lemma NoLarger<T>(a: set<T>, b: set<T>)
    requires a <= b
    ensures |a| <= |b|
    ensures a != b ==> |a| < |b|
  {
    assert b == a + (b - a);
    assert a != b ==> b - a != {};
  }
}
