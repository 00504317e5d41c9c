/** Small definitions shared by several models. */
module Wrappers {

  datatype Option<T> = None | Some(value: T)

  /** The number in [lo, hi] closest to x. */
  function Clamp(x: int, lo: int, hi: int): int { if x < lo then lo else if x > hi then hi else x }

  function One(b: bool): nat { if b then 1 else 0 }

  lemma WithOrWithout<T>(s: set<T>, x: T)
    ensures |s| == |s - {x}| + One(x in s)
  {
    if x in s { assert s == s - {x} + {x}; } else { assert s == s - {x}; }
  }
}
