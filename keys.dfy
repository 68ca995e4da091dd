/**
 * Keys of the embedded store and their order.
 *
 * A Go string or []byte key is modelled as a Dafny string.  bbolt orders keys
 * with bytes.Compare; comparing code points lexicographically gives the same
 * order as comparing their UTF-8 encodings byte by byte, so `Less` below is
 * that order.
 */
module Keys {

  type Key = string

  /** bytes.Compare(a, b) < 0 */
  predicate Less(a: Key, b: Key)
    decreases |a|
  {
    if b == [] then false
    else if a == [] then true
    else if a[0] != b[0] then a[0] < b[0]
    else Less(a[1..], b[1..])
  }

  /** bytes.Compare(a, b) <= 0 */
  predicate LessEq(a: Key, b: Key) {
    a == b || Less(a, b)
  }

  /** bytes.Compare: -1, 0 or +1. */
  function Compare(a: Key, b: Key): (c: int)
    ensures c == 0 <==> a == b
    ensures c < 0 <==> Less(a, b)
    ensures c > 0 <==> Less(b, a)
  {
    LessIrreflexive(a);
    if a == b then 0
    else
      LessTotal(a, b);
      LessAsymmetric(a, b);
      if Less(a, b) then -1 else 1
  }

  lemma {:induction false} LessIrreflexive(a: Key)
    ensures !Less(a, a)
  {
    if a != [] {
      LessIrreflexive(a[1..]);
    }
  }

  lemma {:induction false} LessAsymmetric(a: Key, b: Key)
    ensures !(Less(a, b) && Less(b, a))
  {
    if a != [] && b != [] && a[0] == b[0] {
      LessAsymmetric(a[1..], b[1..]);
    }
  }

  lemma {:induction false} LessTransitive(a: Key, b: Key, c: Key)
    requires Less(a, b) && Less(b, c)
    ensures Less(a, c)
  {
    if a != [] && a[0] == b[0] && b[0] == c[0] {
      LessTransitive(a[1..], b[1..], c[1..]);
    }
  }

  lemma {:induction false} LessTotal(a: Key, b: Key)
    ensures a == b || Less(a, b) || Less(b, a)
  {
    if a != [] && b != [] && a[0] == b[0] {
      LessTotal(a[1..], b[1..]);
      if a[1..] == b[1..] {
        assert a == [a[0]] + a[1..] && b == [b[0]] + b[1..];
      }
    }
  }

  lemma LessEqTransitive(a: Key, b: Key, c: Key)
    requires LessEq(a, b) && LessEq(b, c)
    ensures LessEq(a, c)
  {
    if Less(a, b) && Less(b, c) {
      LessTransitive(a, b, c);
    }
  }

  lemma LessEqAntisymmetric(a: Key, b: Key)
    requires LessEq(a, b) && LessEq(b, a)
    ensures a == b
  {
    LessAsymmetric(a, b);
  }

  lemma NotLessEq(a: Key, b: Key)
    ensures !LessEq(a, b) <==> Less(b, a)
  {
    LessTotal(a, b);
    LessAsymmetric(a, b);
    LessIrreflexive(a);
  }

  /**
   * Between two keys of the same length, an appended character decides only
   * when the prefixes are equal.
   */
  lemma {:induction false} LessAppend(x: Key, y: Key, c: char, d: char)
    requires |x| == |y|
    ensures Less(x + [c], y + [d]) <==> Less(x, y) || (x == y && c < d)
  {
    if x == [] {
      assert x + [c] == [c] && y + [d] == [d];
    } else {
      assert (x + [c])[1..] == x[1..] + [c];
      assert (y + [d])[1..] == y[1..] + [d];
      LessAppend(x[1..], y[1..], c, d);
      if x[0] == y[0] && x[1..] == y[1..] {
        assert x == [x[0]] + x[1..] && y == [y[0]] + y[1..];
      }
    }
  }
}
