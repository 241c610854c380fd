/** The outcome of asking for the used size of an object.

  A size computation either produces a byte count or stops: gdb
  raises on an expression it cannot evaluate (`Unreadable`), or the computation
  runs forever (`NoProgress`). Sizes are combined left to right, as the handlers
  add their terms, so the first term that stops decides the outcome.
 */
module Outcomes {

  datatype Fault = Unreadable | NoProgress

  datatype SizeResult = Size(bytes: nat) | Failed(fault: Fault)

  /** `a + b` evaluated left to right: a failure of `a` is never followed by `b`. */
  function Plus(a: SizeResult, b: SizeResult): (r: SizeResult)
    ensures r.Size? <==> a.Size? && b.Size?
    ensures r.Size? ==> r.bytes == a.bytes + b.bytes
    ensures a.Failed? ==> r == a
    ensures a.Size? && b.Failed? ==> r == b
  {
    if a.Failed? then a else if b.Failed? then b else Size(a.bytes + b.bytes)
  }

  lemma PlusAssociative(a: SizeResult, b: SizeResult, c: SizeResult)
    ensures Plus(Plus(a, b), c) == Plus(a, Plus(b, c))
  {
  }

  /** The sum of `f` over `xs`, first element first. */
  function SumOf<T>(f: T -> SizeResult, xs: seq<T>): SizeResult
  {
    if xs == [] then Size(0) else Plus(f(xs[0]), SumOf(f, xs[1..]))
  }

  /** What one term adds to the byte count. */
  function Term<T>(f: T -> SizeResult, x: T): nat
  {
    if f(x).Size? then f(x).bytes else 0
  }

  /** The byte count of the sum when nothing fails: each element counted once. */
  function Bytes<T>(f: T -> SizeResult, xs: seq<T>): nat
  {
    if xs == [] then 0 else Term(f, xs[0]) + Bytes(f, xs[1..])
  }

  ghost predicate AllSized<T>(f: T -> SizeResult, xs: seq<T>)
  {
    forall i :: 0 <= i < |xs| ==> f(xs[i]).Size?
  }

  /** A sum succeeds exactly when every term does, and is then the sum of the terms. */
  lemma {:induction false} SumOfCharacterized<T>(f: T -> SizeResult, xs: seq<T>)
    ensures SumOf(f, xs).Size? <==> AllSized(f, xs)
    ensures SumOf(f, xs).Size? ==> SumOf(f, xs).bytes == Bytes(f, xs)
  {
    if xs != [] {
      SumOfCharacterized(f, xs[1..]);
      if AllSized(f, xs) {
        assert forall i :: 0 <= i < |xs[1..]| ==> f(xs[1..][i]).Size? by {
          forall i | 0 <= i < |xs[1..]| ensures f(xs[1..][i]).Size? {
            assert xs[1..][i] == xs[i + 1];
          }
        }
      }
      if f(xs[0]).Size? && AllSized(f, xs[1..]) {
        forall i | 0 <= i < |xs| ensures f(xs[i]).Size? {
          if i > 0 {
            assert xs[i] == xs[1..][i - 1];
          }
        }
      }
    }
  }

  /** The first failing term decides a failing sum. */
  lemma {:induction false} SumOfFirstFailure<T>(f: T -> SizeResult, xs: seq<T>, k: nat)
    requires k < |xs| && f(xs[k]).Failed?
    requires forall i :: 0 <= i < k ==> f(xs[i]).Size?
    ensures SumOf(f, xs) == f(xs[k])
  {
    if k > 0 {
      SumOfFirstFailure(f, xs[1..], k - 1);
    }
  }

  lemma {:induction false} SumOfConcat<T>(f: T -> SizeResult, a: seq<T>, b: seq<T>)
    ensures SumOf(f, a + b) == Plus(SumOf(f, a), SumOf(f, b))
  {
    if a == [] {
      assert a + b == b;
    } else {
      assert (a + b)[0] == a[0];
      assert (a + b)[1..] == a[1..] + b;
      SumOfConcat(f, a[1..], b);
      PlusAssociative(f(a[0]), SumOf(f, a[1..]), SumOf(f, b));
    }
  }

  /** Adding one more term at the end of a running total, as a loop does. */
  lemma SumOfSnoc<T>(f: T -> SizeResult, a: seq<T>, x: T)
    ensures SumOf(f, a + [x]) == Plus(SumOf(f, a), f(x))
  {
    SumOfConcat(f, a, [x]);
    assert [x][1..] == [];
  }

  lemma {:induction false} BytesConcat<T>(f: T -> SizeResult, a: seq<T>, b: seq<T>)
    ensures Bytes(f, a + b) == Bytes(f, a) + Bytes(f, b)
  {
    if a == [] {
      assert a + b == b;
    } else {
      assert (a + b)[0] == a[0];
      assert (a + b)[1..] == a[1..] + b;
      BytesConcat(f, a[1..], b);
    }
  }

  /** `b` without its element at `j`. */
  function Without<T>(b: seq<T>, j: nat): (r: seq<T>)
    requires j < |b|
    ensures |r| == |b| - 1
  {
    b[..j] + b[j + 1..]
  }

  /** Taking the element at `j` out of a sequence takes one copy of it out of the
      multiset. */
  lemma MultisetWithout<T>(b: seq<T>, j: nat)
    requires j < |b|
    ensures multiset(Without(b, j)) == multiset(b) - multiset{b[j]}
  {
    assert b == b[..j] + [b[j]] + b[j + 1..];
  }

  /** An element of the multiset of `b` sits at some index of `b`. */
  lemma IndexOf<T>(b: seq<T>, x: T) returns (j: nat)
    requires x in multiset(b)
    ensures j < |b| && b[j] == x
  {
    var i :| 0 <= i < |b| && b[i] == x;
    j := i;
  }

  /** Two permutations of each other stay so once the first element of one is taken
      out of both. */
  lemma PermutationStep<T>(a: seq<T>, b: seq<T>, j: nat)
    requires 0 < |a| && j < |b| && b[j] == a[0] && multiset(a) == multiset(b)
    ensures multiset(a[1..]) == multiset(Without(b, j))
  {
    MultisetWithout(a, 0);
    MultisetWithout(b, j);
    assert Without(a, 0) == a[1..];
  }

  lemma SplitAt<T>(b: seq<T>, j: nat)
    requires j < |b|
    ensures b == b[..j] + ([b[j]] + b[j + 1..])
  {
  }

  lemma BytesCons<T>(f: T -> SizeResult, x: T, v: seq<T>)
    ensures Bytes(f, [x] + v) == Term(f, x) + Bytes(f, v)
  {
    assert ([x] + v)[1..] == v;
  }

  /** Taking one term out of the middle takes its bytes out of the count. */
  lemma BytesSplit<T>(f: T -> SizeResult, u: seq<T>, x: T, v: seq<T>)
    ensures Bytes(f, u + ([x] + v)) == Term(f, x) + Bytes(f, u + v)
  {
    BytesConcat(f, u, [x] + v);
    BytesCons(f, x, v);
    BytesConcat(f, u, v);
  }

  /** The byte count of a sequence is its term at `j` plus the byte count of the rest. */
  lemma BytesWithout<T>(f: T -> SizeResult, b: seq<T>, j: nat)
    requires j < |b|
    ensures Bytes(f, b) == Term(f, b[j]) + Bytes(f, Without(b, j))
  {
    SplitAt(b, j);
    BytesSplit(f, b[..j], b[j], b[j + 1..]);
  }

  /** Reordering the terms does not change the byte count. */
  lemma {:induction false} BytesPermutation<T>(f: T -> SizeResult, a: seq<T>, b: seq<T>)
    requires multiset(a) == multiset(b)
    ensures Bytes(f, a) == Bytes(f, b)
    decreases |a|
  {
    if a == [] {
      assert |b| == |multiset(b)| == 0;
    } else {
      var j := IndexOf(b, a[0]);
      PermutationStep(a, b, j);
      BytesPermutation(f, a[1..], Without(b, j));
      BytesWithout(f, b, j);
    }
  }

  /** Reordering the terms changes neither whether the sum succeeds nor its value. */
  lemma SumOfPermutation<T>(f: T -> SizeResult, a: seq<T>, b: seq<T>)
    requires multiset(a) == multiset(b)
    ensures SumOf(f, a).Size? <==> SumOf(f, b).Size?
    ensures SumOf(f, a).Size? ==> SumOf(f, a).bytes == SumOf(f, b).bytes
  {
    SumOfCharacterized(f, a);
    SumOfCharacterized(f, b);
    if AllSized(f, a) {
      forall i | 0 <= i < |b| ensures f(b[i]).Size? {
        assert b[i] in multiset(a);
      }
    }
    if AllSized(f, b) {
      forall i | 0 <= i < |a| ensures f(a[i]).Size? {
        assert a[i] in multiset(b);
      }
    }
    BytesPermutation(f, a, b);
  }

  /** A sum of three terms. */
  lemma SumOfThree<T>(f: T -> SizeResult, xs: seq<T>)
    requires |xs| == 3
    ensures SumOf(f, xs) == Plus(f(xs[0]), Plus(f(xs[1]), Plus(f(xs[2]), Size(0))))
  {
    var ys := xs[1..];
    var zs := ys[1..];
    assert ys[0] == xs[1] && zs[0] == xs[2] && zs[1..] == [];
    assert SumOf(f, zs) == Plus(f(xs[2]), Size(0));
    assert SumOf(f, ys) == Plus(f(xs[1]), SumOf(f, zs));
  }

  /** Terms that all succeed with the same byte count `c` sum to `|xs| * c`. */
  lemma {:induction false} SumOfConstant<T>(f: T -> SizeResult, xs: seq<T>, c: nat)
    requires forall i :: 0 <= i < |xs| ==> f(xs[i]) == Size(c)
    ensures SumOf(f, xs) == Size(|xs| * c)
  {
    if xs != [] {
      assert forall i :: 0 <= i < |xs[1..]| ==> xs[1..][i] == xs[i + 1];
      SumOfConstant(f, xs[1..], c);
    }
  }

  /** `n` copies of `r` added up: `n` times its bytes, or its fault when `n > 0`. */
  function Times(n: nat, r: SizeResult): SizeResult
  {
    if n == 0 then Size(0)
    else match r
      case Size(b) => Size(n * b)
      case Failed(_) => r
  }

  /** Terms that are all the same outcome `r` sum to `|xs|` copies of it. */
  lemma SumOfSame<T>(f: T -> SizeResult, xs: seq<T>, r: SizeResult)
    requires forall i :: 0 <= i < |xs| ==> f(xs[i]) == r
    ensures SumOf(f, xs) == Times(|xs|, r)
  {
    if r.Size? {
      SumOfConstant(f, xs, r.bytes);
    } else if xs != [] {
      SumOfFirstFailure(f, xs, 0);
    }
  }
}
