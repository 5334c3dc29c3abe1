/** The order JavaScript's `<` and `sort()` put on strings: lexicographic by character. */
module Text {

  predicate Less(a: string, b: string) {
    if a == [] then b != []
    else if b == [] then false
    else if a[0] != b[0] then a[0] < b[0]
    else Less(a[1..], b[1..])
  }

  lemma {:induction false} LessTotal(a: string, b: string)
    ensures Less(a, b) || Less(b, a) || a == b
  {
    if a != [] && b != [] && a[0] == b[0] {
      LessTotal(a[1..], b[1..]);
      assert a == [a[0]] + a[1..] && b == [b[0]] + b[1..];
    }
  }

  lemma {:induction false} LessAsymmetric(a: string, b: string)
    ensures !(Less(a, b) && Less(b, a))
    ensures !Less(a, a)
  {
    if a != [] {
      LessAsymmetric(a[1..], if b != [] then b[1..] else []);
    }
  }

  lemma {:induction false} LessTransitive(a: string, b: string, c: string)
    requires Less(a, b) && Less(b, c)
    ensures Less(a, c)
  {
    if a != [] && a[0] == b[0] == c[0] {
      LessTransitive(a[1..], b[1..], c[1..]);
    }
  }

  /** The earlier text is a proper prefix, or has the smaller character at the first difference. */
  ghost predicate EarlierText(a: string, b: string) {
    a < b || exists i :: 0 <= i < |a| && i < |b| && a[..i] == b[..i] && a[i] < b[i]
  }

  lemma SameFirstCharacter(a: string, b: string)
    requires a != [] && b != [] && a[0] == b[0]
    ensures EarlierText(a, b) <==> EarlierText(a[1..], b[1..])
  {
    assert a == [a[0]] + a[1..] && b == [b[0]] + b[1..];
    if EarlierText(a[1..], b[1..]) && !(a[1..] < b[1..]) {
      var i :| 0 <= i < |a[1..]| && i < |b[1..]| && a[1..][..i] == b[1..][..i] && a[1..][i] < b[1..][i];
      assert a[..i + 1] == [a[0]] + a[1..][..i] && b[..i + 1] == [b[0]] + b[1..][..i];
    }
    if EarlierText(a, b) && !(a < b) {
      var i :| 0 <= i < |a| && i < |b| && a[..i] == b[..i] && a[i] < b[i];
      assert i > 0 && a[1..][..i - 1] == a[..i][1..] && b[1..][..i - 1] == b[..i][1..];
    }
  }

  lemma {:induction false} LessIsLexicographic(a: string, b: string)
    ensures Less(a, b) <==> EarlierText(a, b)
  {
    if a != [] && b != [] {
      if a[0] == b[0] {
        SameFirstCharacter(a, b);
        LessIsLexicographic(a[1..], b[1..]);
      } else {
        assert a[..0] == b[..0];
        assert forall i :: 0 < i < |a| && i < |b| ==> a[..i][0] == a[0] && b[..i][0] == b[0];
      }
    }
  }

  /** `canonicalPair`: the same ordered pair whichever way round the two users are given. */
  function CanonicalPair(a: string, b: string): (p: (string, string)) {
    if Less(a, b) then (a, b) else (b, a)
  }

  lemma CanonicalPairSymmetric(a: string, b: string)
    ensures CanonicalPair(a, b) == CanonicalPair(b, a)
    ensures CanonicalPair(a, b) == (a, b) || CanonicalPair(a, b) == (b, a)
    ensures !Less(CanonicalPair(a, b).1, CanonicalPair(a, b).0)
  {
    LessTotal(a, b);
    LessAsymmetric(a, b);
    LessAsymmetric(b, a);
  }
}
