/** Vocabulary shared by the models: bytes, options and concatenation. */
module Common {

  type byte = b: int | 0 <= b < 256
  type Bytes = seq<byte>

  const TWO_TO_THE_64: nat := 0x1_0000_0000_0000_0000

  datatype Option<+T> = None | Some(value: T) {
    function GetOr(default: T): T {
      if Some? then value else default
    }
  }

  function Min(a: int, b: int): int {
    if a < b then a else b
  }

  function Concat<T>(parts: seq<seq<T>>): seq<T> {
    if parts == [] then [] else parts[0] + Concat(parts[1..])
  }

  lemma {:induction false} ConcatAppend<T>(a: seq<seq<T>>, b: seq<seq<T>>)
    ensures Concat(a + b) == Concat(a) + Concat(b)
  {
    if a == [] {
      assert a + b == b;
    } else {
      assert (a + b)[1..] == a[1..] + b;
      ConcatAppend(a[1..], b);
    }
  }

  lemma ConcatOne<T>(a: seq<seq<T>>, x: seq<T>)
    ensures Concat(a + [x]) == Concat(a) + x
  {
    ConcatAppend(a, [x]);
    assert Concat([x]) == x + Concat([x][1..]);
  }

  lemma ConcatTwo<T>(parts: seq<seq<T>>)
    requires |parts| == 2
    ensures Concat(parts) == parts[0] + parts[1]
  {
    assert parts == [parts[0]] + [parts[1]];
    ConcatOne([parts[0]], parts[1]);
    ConcatOne([], parts[0]);
    assert [] + [parts[0]] == [parts[0]];
  }

  lemma AppendAssociates<T>(a: seq<T>, b: seq<T>, c: seq<T>)
    ensures a + (b + c) == (a + b) + c
  {
  }

  lemma DropTwice<T>(s: seq<T>, i: nat, j: nat)
    requires i + j <= |s|
    ensures s[i..][j..] == s[i + j..]
  {
  }

  lemma AppendNothing<T>(a: seq<T>, b: seq<T>)
    ensures a + b[..0] == a
  {
  }

  /** The multiset union of a bag for every element. */
  function SumOf<X, T>(xs: seq<X>, bag: X -> multiset<T>): multiset<T> {
    if xs == [] then multiset{} else SumOf(xs[..|xs| - 1], bag) + bag(xs[|xs| - 1])
  }

  lemma Exchange<T>(a: multiset<T>, b: multiset<T>, c: multiset<T>, d: multiset<T>, e: multiset<T>)
    requires a + b == c + d
    ensures (a + e) + b == (c + e) + d
  {
    assert (a + e) + b == (a + b) + e && (c + e) + d == (c + d) + e;
  }

  lemma Swap<T>(a: multiset<T>, b: multiset<T>, c: multiset<T>)
    ensures (a + b) + c == (a + c) + b
  {
  }

  lemma AssociateBags<T>(a: multiset<T>, b: multiset<T>, c: multiset<T>)
    ensures (a + b) + c == a + (b + c)
  {
  }

  /** Replacing one element exchanges its bag. */
  lemma {:induction false} SumOfUpdate<X, T>(xs: seq<X>, bag: X -> multiset<T>, i: nat, x: X)
    requires i < |xs|
    ensures SumOf(xs[i := x], bag) + bag(xs[i]) == SumOf(xs, bag) + bag(x)
    decreases |xs|
  {
    var n, updated := |xs| - 1, xs[i := x];
    assert SumOf(updated, bag) == SumOf(updated[..n], bag) + bag(updated[n]);
    assert SumOf(xs, bag) == SumOf(xs[..n], bag) + bag(xs[n]);
    if i < n {
      SumOfUpdate(xs[..n], bag, i, x);
      assert updated[..n] == xs[..n][i := x];
      Exchange(SumOf(updated[..n], bag), bag(xs[i]), SumOf(xs[..n], bag), bag(x), bag(xs[n]));
    } else {
      assert updated[..n] == xs[..n];
      Swap(SumOf(xs[..n], bag), bag(x), bag(xs[n]));
    }
  }

  lemma {:induction false} SumOfNothing<X, T>(xs: seq<X>, bag: X -> multiset<T>)
    requires forall i :: 0 <= i < |xs| ==> bag(xs[i]) == multiset{}
    ensures SumOf(xs, bag) == multiset{}
    decreases |xs|
  {
    if xs != [] {
      var n := |xs| - 1;
      assert forall i :: 0 <= i < n ==> xs[..n][i] == xs[i];
      SumOfNothing(xs[..n], bag);
    }
  }

  lemma Cancel<T>(x: multiset<T>, b: multiset<T>, y: multiset<T>)
    requires x + b == y + b
    ensures x == y
  {
    assert x == (x + b) - b && y == (y + b) - b;
  }
}
