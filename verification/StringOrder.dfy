/** The order Python sorts strings in. */
module StringOrder {

  /** Strings by their characters, as Python compares them. */
  predicate AtMost(a: string, b: string) {
    a == "" || (b != "" && (a[0] < b[0] || (a[0] == b[0] && AtMost(a[1..], b[1..]))))
  }

  lemma {:induction false} AtMostIsTotal(a: string, b: string)
    ensures AtMost(a, b) || AtMost(b, a)
    ensures AtMost(a, b) && AtMost(b, a) ==> a == b
    decreases |a|
  {
    if a != "" && b != "" && a[0] == b[0] {
      AtMostIsTotal(a[1..], b[1..]);
      assert a == [a[0]] + a[1..] && b == [b[0]] + b[1..];
    }
  }

  lemma {:induction false} AtMostIsTransitive(a: string, b: string, c: string)
    requires AtMost(a, b) && AtMost(b, c)
    ensures AtMost(a, c)
    decreases |a|
  {
    if a != "" && a[0] == b[0] == c[0] {
      AtMostIsTransitive(a[1..], b[1..], c[1..]);
    }
  }

  /** a is a proper prefix of b, or smaller where they first differ. */
  predicate ComesFirst(a: string, b: string) {
    (a <= b && a != b) || exists k :: 0 <= k < |a| && k < |b| && FirstDiffer(a, b, k)
  }

  /** The strings agree before k, where a has the smaller character. */
  predicate FirstDiffer(a: string, b: string, k: nat)
    requires k < |a| && k < |b|
  {
    a[..k] == b[..k] && (a[k] as int) < (b[k] as int)
  }

  lemma {:induction false} AtMostIs(a: string, b: string)
    ensures AtMost(a, b) <==> a == b || ComesFirst(a, b)
    decreases |a|
  {
    if a != "" && b != "" {
      if a[0] == b[0] {
        AtMostIs(a[1..], b[1..]);
        SameFirst(a, b);
      } else if a[0] < b[0] {
        assert FirstDiffer(a, b, 0);
      }
    }
  }

  lemma SameFirst(a: string, b: string)
    requires a != "" && b != "" && a[0] == b[0]
    ensures ComesFirst(a, b) <==> ComesFirst(a[1..], b[1..])
    ensures a == b <==> a[1..] == b[1..]
  {
    hide FirstDiffer;
    var c, d := a[1..], b[1..];
    assert a == [a[0]] + c && b == [b[0]] + d;
    if k :| 0 <= k < |c| && k < |d| && FirstDiffer(c, d, k) {
      DifferOneOn(a, b, k);
    }
    if k :| 0 <= k < |a| && k < |b| && FirstDiffer(a, b, k) {
      NotAtFirst(a, b, k);
      DifferOneOn(a, b, k - 1);
    }
  }

  lemma NotAtFirst(a: string, b: string, k: nat)
    requires a != "" && b != "" && a[0] == b[0] && k < |a| && k < |b| && FirstDiffer(a, b, k)
    ensures k > 0
  {
  }

  lemma DifferOneOn(a: string, b: string, k: nat)
    requires a != "" && b != "" && a[0] == b[0] && k + 1 < |a| && k + 1 < |b|
    ensures FirstDiffer(a[1..], b[1..], k) <==> FirstDiffer(a, b, k + 1)
  {
    assert a[..k + 1] == [a[0]] + a[1..][..k] && b[..k + 1] == [b[0]] + b[1..][..k];
  }
}
