/**
 Text order: that of SQLite's default collation and of ordered maps with string keys.
 Comparing code points is comparing UTF-8 bytes.
 */
module Texts {
  /** Byte-wise comparison, a proper prefix coming first. */
  predicate TextLess(a: string, b: string) {
    b != [] && (a == [] || a[0] < b[0] || (a[0] == b[0] && TextLess(a[1..], b[1..])))
  }

  lemma {:induction false} TextLessAfter(p: string, a: string, b: string)
    ensures TextLess(p + a, p + b) <==> TextLess(a, b)
  {
    if p == [] {
      assert p + a == a && p + b == b;
    } else {
      assert (p + a)[1..] == p[1..] + a && (p + b)[1..] == p[1..] + b;
      TextLessAfter(p[1..], a, b);
    }
  }

  lemma {:induction false} TextLessDiffers(x: string, y: string, a: string, b: string)
    requires |x| == |y| && x != y
    ensures TextLess(x + a, y + b) <==> TextLess(x, y)
  {
    assert (x + a)[0] == x[0] && (y + b)[0] == y[0];
    if x[0] == y[0] {
      assert x == [x[0]] + x[1..] && y == [y[0]] + y[1..];
      assert (x + a)[1..] == x[1..] + a && (y + b)[1..] == y[1..] + b;
      TextLessDiffers(x[1..], y[1..], a, b);
    }
  }

  lemma {:induction false} TextLessTransitive(a: string, b: string, c: string)
    requires TextLess(a, b) && TextLess(b, c)
    ensures TextLess(a, c)
  {
    if a != [] && a[0] == b[0] && b[0] == c[0] { TextLessTransitive(a[1..], b[1..], c[1..]); }
  }

  lemma {:induction false} TextLessIrreflexive(a: string)
    ensures !TextLess(a, a)
  {
    if a != [] { TextLessIrreflexive(a[1..]); }
  }

  lemma ProperPrefixLess(a: string, b: string)
    requires b != ""
    ensures TextLess(a, a + b)
  {
    TextLessAfter(a, "", b);
    assert a + "" == a;
  }
}
