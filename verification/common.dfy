// What several parts of the model need.
module Common {

  datatype Option<T> = None | Some(value: T)

  function Pow2(n: nat): (p: nat)
    ensures p > 0
  {
    if n == 0 then 1 else 2 * Pow2(n - 1)
  }

  // A byte or a code that is one of these characters
  predicate OneOf(c: int, chars: string) { exists k :: 0 <= k < |chars| && c == chars[k] as int }
}
