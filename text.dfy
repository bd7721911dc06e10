/** Substring search, as the splitter uses it (Go's strings.Contains). */
module Text {

  /** `sub` occurs in `s` starting at index `i`. */
  ghost predicate OccursAt(s: string, sub: string, i: nat) {
    i + |sub| <= |s| && s[i..i + |sub|] == sub
  }

  /** Does `sub` occur anywhere in `s`? Every string contains the empty string. */
  function Contains(s: string, sub: string): bool
    decreases |s|
  {
    sub <= s || (|s| > 0 && Contains(s[1..], sub))
  }

  /** A slice of the tail is the slice of the whole shifted by one. */
  lemma SliceOfTail(s: string, a: nat, b: nat)
    requires 1 <= a <= b <= |s|
    ensures s[1..][a - 1..b - 1] == s[a..b]
  {
    forall q | 0 <= q < b - a
      ensures s[1..][a - 1..b - 1][q] == s[a..b][q]
    {
      assert s[1..][a - 1 + q] == s[a + q];
    }
  }

  /** Contains agrees with the positional definition of an occurrence. */
  lemma {:induction false} ContainsIffOccurs(s: string, sub: string)
    ensures Contains(s, sub) <==> exists i: nat :: OccursAt(s, sub, i)
    decreases |s|
  {
    if sub <= s {
      assert OccursAt(s, sub, 0);
    } else if |s| > 0 {
      ContainsIffOccurs(s[1..], sub);
      if Contains(s[1..], sub) {
        var j: nat :| OccursAt(s[1..], sub, j);
        SliceOfTail(s, j + 1, j + 1 + |sub|);
        assert OccursAt(s, sub, j + 1);
      }
      if exists i: nat :: OccursAt(s, sub, i) {
        var i: nat :| OccursAt(s, sub, i);
        if i > 0 {
          SliceOfTail(s, i, i + |sub|);
          assert OccursAt(s[1..], sub, i - 1);
        }
      }
    }
  }

  /** The empty line of an exhausted scanner contains no non-empty marker. */
  lemma EmptyContainsNoMarker(sub: string)
    requires sub != []
    ensures !Contains([], sub)
  {
  }
}
