/** String matching used by the search boxes and the file scanner.

    .NET's ordinal case-insensitive comparison folds with the full Unicode
    case tables; this model folds ASCII letters only. */
module Text {

  /** ASCII lower-casing of one character; every other character is left as it is. */
  function Lower(c: char): char
  {
    if 'A' <= c <= 'Z' then (c as int - 'A' as int + 'a' as int) as char else c
  }

  /** The case-folded form of a string, character by character. */
  function Fold(s: string): string
  {
    seq(|s|, i requires 0 <= i < |s| => Lower(s[i]))
  }

  /** `q` occurs in `s` starting at position `i`. */
  ghost predicate OccursAt(s: string, q: string, i: int)
  {
    0 <= i && i + |q| <= |s| && s[i..i + |q|] == q
  }

  /** `String.Contains(q)`: try every start position of `s`, left to right. */
  function Contains(s: string, q: string): bool
  {
    q <= s || (s != [] && Contains(s[1..], q))
  }

  /** `String.Contains(q, StringComparison.OrdinalIgnoreCase)`. */
  function ContainsIgnoreCase(s: string, q: string): bool
  {
    Contains(Fold(s), Fold(q))
  }

  /** `String.Equals(q, StringComparison.OrdinalIgnoreCase)`. */
  predicate EqualsIgnoreCase(s: string, q: string)
  {
    Fold(s) == Fold(q)
  }

  /** An ordinal, case-sensitive suffix test: the last `|suffix|` characters are `suffix`.
      This stands for `String.EndsWith(suffix)`, whose culture-sensitive comparison is not modelled. */
  predicate EndsWith(s: string, suffix: string)
  {
    |suffix| <= |s| && s[|s| - |suffix|..] == suffix
  }

  /** The scanning definition of Contains agrees with "occurs somewhere". */
  lemma {:induction false} ContainsIffOccurs(s: string, q: string)
    ensures Contains(s, q) <==> exists i :: OccursAt(s, q, i)
  {
    if q <= s {
      assert OccursAt(s, q, 0);
    } else if s != [] {
      ContainsIffOccurs(s[1..], q);
      if Contains(s[1..], q) {
        var i :| OccursAt(s[1..], q, i);
        assert s[1..][i..i + |q|] == s[i + 1..i + 1 + |q|];
        assert OccursAt(s, q, i + 1);
      }
      forall i | OccursAt(s, q, i) ensures Contains(s[1..], q) {
        assert s[1..][i - 1..i - 1 + |q|] == s[i..i + |q|];
        assert OccursAt(s[1..], q, i - 1);
      }
    }
  }

  /** An empty query is found in every string, so an empty search box filters nothing. */
  lemma EmptyQueryAlwaysContained(s: string)
    ensures Contains(s, "") && ContainsIgnoreCase(s, "")
  {
  }

  /** A query that occurs exactly also occurs when case is ignored. */
  lemma ExactMatchImpliesIgnoreCase(s: string, q: string)
    ensures Contains(s, q) ==> ContainsIgnoreCase(s, q)
  {
    if Contains(s, q) {
      ContainsIffOccurs(s, q);
      var i :| OccursAt(s, q, i);
      assert Fold(s)[i..i + |q|] == Fold(q);
      assert OccursAt(Fold(s), Fold(q), i);
      ContainsIffOccurs(Fold(s), Fold(q));
    }
  }

  /** Case-insensitive containment does not depend on the letter case of either side. */
  lemma IgnoreCaseIsCaseBlind(s: string, q: string)
    ensures ContainsIgnoreCase(Fold(s), q) == ContainsIgnoreCase(s, q)
    ensures ContainsIgnoreCase(s, Fold(q)) == ContainsIgnoreCase(s, q)
  {
    FoldIdempotent(s);
    FoldIdempotent(q);
  }

  lemma FoldIdempotent(s: string)
    ensures Fold(Fold(s)) == Fold(s)
  {
  }
}
