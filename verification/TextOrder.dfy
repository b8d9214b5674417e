/** JavaScript's `<` on texts: by the first character that differs. */
module TextOrder {
  predicate Before(a: string, b: string) {
    if b == [] then false
    else if a == [] then true
    else a[0] < b[0] || (a[0] == b[0] && Before(a[1..], b[1..]))
  }

  /** No two texts are each before the other, and both "before" and "not before" carry over. */
  lemma {:induction false} Ordered(a: string, b: string, c: string)
    ensures Before(a, b) ==> !Before(b, a)
    ensures Before(a, b) && Before(b, c) ==> Before(a, c)
    ensures !Before(a, b) && !Before(b, c) ==> !Before(a, c)
  {
    if a != [] && b != [] {
      Ordered(a[1..], b[1..], if c == [] then [] else c[1..]);
    }
  }

  /** Texts of one length are compared piece by piece. */
  lemma {:induction false} PieceByPiece(p: string, q: string, p': string, q': string)
    requires |p| == |p'|
    ensures Before(p + q, p' + q') <==> Before(p, p') || (p == p' && Before(q, q'))
  {
    if p == [] {
      assert p + q == q && p' + q' == q';
    } else {
      assert (p + q)[1..] == p[1..] + q && (p' + q')[1..] == p'[1..] + q';
      PieceByPiece(p[1..], q, p'[1..], q');
      assert p == [p[0]] + p[1..] && p' == [p'[0]] + p'[1..];
    }
  }
}
