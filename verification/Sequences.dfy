/** Facts about sequences that proofs name instead of finding them again. */
module Sequences {
  lemma Assoc<T>(a: seq<T>, b: seq<T>, c: seq<T>)
    ensures (a + b) + c == a + (b + c)
  {
  }

  lemma Empty<T>(a: seq<T>)
    ensures [] + a == a == a + []
  {
  }

  /** The front of a concatenation is the front of its first part. */
  lemma Front<T>(a: seq<T>, b: seq<T>)
    requires a != []
    ensures (a + b)[0] == a[0] && (a + b)[1..] == a[1..] + b
  {
  }

  lemma FirstAndRest<T>(a: seq<T>)
    requires a != []
    ensures [a[0]] + a[1..] == a
  {
  }

  /** Two sequences fall apart where they were joined. */
  lemma Parts<T>(a: seq<T>, b: seq<T>)
    ensures (a + b)[..|a|] == a && (a + b)[|a|..] == b
  {
  }

  /** What a concatenation is without its last element. */
  lemma Last<T>(a: seq<T>, b: seq<T>)
    requires b != []
    ensures var n, m := |a + b| - 1, |b| - 1;
            (a + b)[..n] == a + b[..m] && (a + b)[n] == b[m] && a + b == (a + b[..m]) + [b[m]]
  {
  }
}
