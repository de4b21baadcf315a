/** Searching and replacing in strings, as `indexOf`, `startsWith` and `replace` do it. */
module Texts {
  predicate At(s: string, pattern: string) {
    |pattern| <= |s| && s[..|pattern|] == pattern
  }

  /** Where the pattern first occurs, or the length of the string. */
  function IndexOf(s: string, pattern: string): (i: nat)
    ensures i <= |s| && (i < |s| ==> At(s[i..], pattern))
  {
    if s == [] || At(s, pattern) then 0 else 1 + IndexOf(s[1..], pattern)
  }

  lemma {:induction false} OccursBy(s: string, pattern: string, k: nat)
    requires k < |s| && At(s[k..], pattern)
    ensures IndexOf(s, pattern) <= k
  {
    if !At(s, pattern) {
      assert s[0..] == s;
      assert s[1..][k - 1..] == s[k..];
      OccursBy(s[1..], pattern, k - 1);
    }
  }

  /** A prefix without the pattern's first character is passed over. */
  lemma {:induction false} IndexSkips(a: string, b: string, pattern: string)
    requires pattern != [] && pattern[0] !in a
    ensures IndexOf(a + b, pattern) == |a| + IndexOf(b, pattern)
  {
    if a == [] {
      assert a + b == b;
    } else {
      assert !At(a + b, pattern) by { assert (a + b)[0] == a[0]; }
      assert (a + b)[1..] == a[1..] + b;
      IndexSkips(a[1..], b, pattern);
    }
  }

  /** A global replacement of one character. */
  function ReplaceChar(s: string, c: char, with: string): string {
    if s == "" then "" else (if s[0] == c then with else [s[0]]) + ReplaceChar(s[1..], c, with)
  }

  lemma {:induction false} ReplaceConcat(s: string, t: string, c: char, with: string)
    ensures ReplaceChar(s + t, c, with) == ReplaceChar(s, c, with) + ReplaceChar(t, c, with)
    decreases |s|
  {
    if s == "" {
      assert s + t == t;
    } else {
      assert (s + t)[0] == s[0] && (s + t)[1..] == s[1..] + t;
      ReplaceConcat(s[1..], t, c, with);
    }
  }

  lemma {:induction false} ReplaceAbsent(s: string, c: char, with: string)
    requires c !in s
    ensures ReplaceChar(s, c, with) == s
    decreases |s|
  {
    if s != "" {
      assert s == [s[0]] + s[1..];
      ReplaceAbsent(s[1..], c, with);
    }
  }

  lemma ReplaceOne(d: char, c: char, with: string)
    ensures ReplaceChar([d], c, with) == if d == c then with else [d]
  {
    assert [d][1..] == "" && with + "" == with;
  }
}
