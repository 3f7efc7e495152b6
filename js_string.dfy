/** `String.prototype.replace` with a string pattern, for the one-character
    pattern and one-character replacement the dashboard passes. */
module JsString {
  import opened Seqs

  /** `s.replace(pattern, replacement)`: a string pattern is searched from the
      left and only its first occurrence is replaced; a string without the
      pattern comes back unchanged. */
  function ReplaceFirst(s: string, pattern: char, replacement: char): (r: string)
    ensures |r| == |s|
    ensures pattern !in s ==> r == s
    ensures pattern in s ==>
      var i := IndexOf(s, pattern);
      r == s[..i] + [replacement] + s[i + 1..]
  {
    if s == [] then []
    else if s[0] == pattern then [replacement] + s[1..]
    else
      var rest := ReplaceFirst(s[1..], pattern, replacement);
      assert pattern in s[1..] ==> IndexOf(s, pattern) == 1 + IndexOf(s[1..], pattern);
      [s[0]] + rest
  }

  /** When `a` has no occurrence of the pattern, the one right after it is
      the one replaced, and `b` is kept whatever it holds. */
  lemma ReplaceFirstAt(a: string, b: string, pattern: char, replacement: char)
    requires pattern !in a
    ensures ReplaceFirst(a + [pattern] + b, pattern, replacement) == a + [replacement] + b
  {
    var s := a + [pattern] + b;
    assert s[..|a|] == a && s[|a| + 1..] == b;
    IndexOfUnique(s, pattern, |a|);
  }

  /** Exactly one occurrence of the pattern is removed: later ones stay. */
  lemma ReplaceFirstRemovesOne(s: string, pattern: char, replacement: char)
    requires pattern in s && replacement != pattern
    ensures multiset(ReplaceFirst(s, pattern, replacement))[pattern] == multiset(s)[pattern] - 1
  {
    var i := IndexOf(s, pattern);
    var a, b := s[..i], s[i + 1..];
    assert s == a + [pattern] + b;
    assert ReplaceFirst(s, pattern, replacement) == a + [replacement] + b;
    calc {
      multiset(s)[pattern];
      multiset(a)[pattern] + multiset([pattern])[pattern] + multiset(b)[pattern];
      multiset(a)[pattern] + 1 + multiset(b)[pattern];
    }
    calc {
      multiset(a + [replacement] + b)[pattern];
      multiset(a)[pattern] + multiset([replacement])[pattern] + multiset(b)[pattern];
      multiset(a)[pattern] + multiset(b)[pattern];
    }
  }
}
