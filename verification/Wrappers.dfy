/** Stock result types shared by every module. */
module Wrappers {
  datatype Option<+T> = None | Some(value: T)

  datatype Result<+T, +E> = Ok(value: T) | Err(error: E)
}

/** Concatenation laws, kept apart so that proofs can use them one at a time. */
module Seqs {
  lemma Assoc<T>(x: seq<T>, y: seq<T>, z: seq<T>)
    ensures x + (y + z) == (x + y) + z
  {
  }

  lemma Units<T>(x: seq<T>)
    ensures x + [] == x && [] + x == x
  {
  }
}

/** How the sizes of finite sets compare. */
module Sets {
  lemma {:induction false} SubsetSize<T>(a: set<T>, b: set<T>)
    requires a <= b
    ensures |a| <= |b| && (a != b ==> |a| < |b|)
    decreases |b|
  {
    if a != b {
      var x :| x in b && x !in a;
      if a != b - {x} {
        SubsetSize(a, b - {x});
      }
    }
  }
}
