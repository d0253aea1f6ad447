/** Generic sequence helpers: order-preserving subsequences and flattening. */
module Seqs {

  /** `a` can be obtained from `b` by deleting elements, keeping the order. */
  predicate IsSubseq<A(==)>(a: seq<A>, b: seq<A>)
  {
    if a == [] then true
    else if b == [] then false
    else if a[0] == b[0] then IsSubseq(a[1..], b[1..])
    else IsSubseq(a, b[1..])
  }

  /** Concatenation of a sequence of sequences. */
  function Flatten<A>(xss: seq<seq<A>>): (ys: seq<A>)
    ensures xss == [] ==> ys == []
  {
    if xss == [] then [] else xss[0] + Flatten(xss[1..])
  }

  lemma {:induction false} FlattenSnoc<A>(xss: seq<seq<A>>, xs: seq<A>)
    ensures Flatten(xss + [xs]) == Flatten(xss) + xs
  {
    if xss != [] {
      assert (xss + [xs])[1..] == xss[1..] + [xs];
      FlattenSnoc(xss[1..], xs);
    }
  }

  lemma {:induction false} SubseqOfTail<A>(a: seq<A>, b: seq<A>)
    requires b != [] && IsSubseq(a, b[1..])
    ensures IsSubseq(a, b)
    decreases |a| + |b|
  {
    if a != [] && a[0] == b[0] {
      // a[0] matches b[0]; the rest of a is a subsequence of b[1..] because a is
      SubseqDropHead(a, b[1..]);
    }
  }

  lemma {:induction false} SubseqDropHead<A>(a: seq<A>, b: seq<A>)
    requires a != [] && IsSubseq(a, b)
    ensures IsSubseq(a[1..], b)
    decreases |a| + |b|
  {
    if b == [] {
    } else if a[0] == b[0] {
      if a[1..] != [] {
        SubseqOfTail(a[1..], b);
      }
    } else {
      SubseqDropHead(a, b[1..]);
      if a[1..] != [] {
        SubseqOfTail(a[1..], b);
      }
    }
  }
}
