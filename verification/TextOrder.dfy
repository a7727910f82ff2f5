/** Byte-wise ordering of strings: a strict total order. */
module TextOrder {

  predicate Less(a: string, b: string)
    decreases |a|
  {
    && b != ""
    && (a == "" || a[0] < b[0] || (a[0] == b[0] && Less(a[1..], b[1..])))
  }

  lemma {:induction false} Trichotomy(a: string, b: string)
    ensures (a == b) || Less(a, b) || Less(b, a)
    ensures !(Less(a, b) && Less(b, a))
    ensures !(Less(a, b) && a == b)
    decreases |a|
  {
    if a != "" && b != "" && a[0] == b[0] {
      Trichotomy(a[1..], b[1..]);
      assert a == [a[0]] + a[1..] && b == [b[0]] + b[1..];
    }
  }

  lemma {:induction false} Transitive(a: string, b: string, c: string)
    requires Less(a, b) && Less(b, c)
    ensures Less(a, c)
    decreases |a|
  {
    if a != "" && a[0] == b[0] && b[0] == c[0] {
      Transitive(a[1..], b[1..], c[1..]);
    }
  }

  /** `a` sorts first at position `k`: it ends there, or has the smaller character. */
  predicate SmallerAt(a: string, b: string, k: nat) {
    k <= |a| && k < |b| && a[..k] == b[..k] && (k == |a| || a[k] < b[k])
  }

  lemma SharedStart(a: string, b: string, k: nat)
    requires SmallerAt(a, b, k)
    ensures k == 0 || a[0] == b[0]
  {
    assert k > 0 ==> a[..k][0] == b[..k][0];
  }

  lemma SmallerInTails(a: string, b: string)
    requires a != "" && b != "" && a[0] == b[0]
    ensures (exists k :: SmallerAt(a, b, k)) <==> exists k :: SmallerAt(a[1..], b[1..], k)
  {
    if k: nat :| SmallerAt(a, b, k) {
      assert k > 0 && a[..k][1..] == a[1..][..k - 1] && b[..k][1..] == b[1..][..k - 1];
      assert SmallerAt(a[1..], b[1..], k - 1);
    }
    if k: nat :| SmallerAt(a[1..], b[1..], k) {
      assert a[..k + 1] == [a[0]] + a[1..][..k] && b[..k + 1] == [b[0]] + b[1..][..k];
      assert SmallerAt(a, b, k + 1);
    }
  }

  /** The order is the one of the first difference. */
  lemma {:induction false} LessIff(a: string, b: string)
    ensures Less(a, b) <==> exists k :: SmallerAt(a, b, k)
    decreases |a|
  {
    if a != "" && b != "" && a[0] == b[0] {
      LessIff(a[1..], b[1..]);
      SmallerInTails(a, b);
    } else if b != "" && (a == "" || a[0] < b[0]) {
      assert SmallerAt(a, b, 0);
    } else {
      forall k: nat | SmallerAt(a, b, k) ensures k == 0 {
        SharedStart(a, b, k);
      }
    }
  }
}
