/** The parts of Go's `strings` package that the reconciler relies on:
    `Contains`, `HasPrefix` and `SplitN(s, sep, 2)` for a one-character
    separator. Strings are sequences of characters and every test is
    case-sensitive. */
module Strings {

  /** `sub` occurs in `s` starting at index `i`. */
  predicate OccursAt(s: string, sub: string, i: int)
  {
    0 <= i && i + |sub| <= |s| && s[i..i + |sub|] == sub
  }

  /** `strings.HasPrefix`: `prefix` is an initial segment of `s`. */
  predicate HasPrefix(s: string, prefix: string)
  {
    |prefix| <= |s| && s[..|prefix|] == prefix
  }

  /** A prefix test succeeds exactly when `s` is `prefix` followed by a rest. */
  lemma HasPrefixIff(s: string, prefix: string)
    ensures HasPrefix(s, prefix) <==> exists rest :: s == prefix + rest
  {
    if HasPrefix(s, prefix) {
      assert s == prefix + s[|prefix|..];
    }
    forall rest | s == prefix + rest
      ensures HasPrefix(s, prefix)
    {
      assert s[..|prefix|] == prefix;
    }
  }

  /** `strings.Contains`: scans `s` from the left for an occurrence of `sub`. */
  function Contains(s: string, sub: string): (found: bool)
    decreases |s|
  {
    if HasPrefix(s, sub) then true
    else if |s| <= |sub| then false
    else Contains(s[1..], sub)
  }

  lemma OccursAtTail(s: string, sub: string, i: int)
    requires |s| > 0 && 0 <= i
    ensures OccursAt(s[1..], sub, i) <==> OccursAt(s, sub, i + 1)
  {
    if 0 <= i && i + |sub| <= |s| - 1 {
      assert s[1..][i..i + |sub|] == s[i + 1..i + 1 + |sub|];
    }
  }

  /** The scan finds an occurrence exactly when there is one. */
  lemma {:induction false} ContainsIff(s: string, sub: string)
    ensures Contains(s, sub) <==> exists i :: OccursAt(s, sub, i)
    decreases |s|
  {
    if HasPrefix(s, sub) {
      assert s[0..|sub|] == s[..|sub|];
      assert OccursAt(s, sub, 0);
    } else {
      if |sub| <= |s| {
        assert s[0..|sub|] == s[..|sub|];
      }
      assert !OccursAt(s, sub, 0);
      if |s| <= |sub| {
        assert forall i :: OccursAt(s, sub, i) ==> i == 0;
      } else {
        ContainsIff(s[1..], sub);
        forall i | 0 < i
          ensures OccursAt(s, sub, i) <==> OccursAt(s[1..], sub, i - 1)
        {
          OccursAtTail(s, sub, i - 1);
        }
        forall j | OccursAt(s[1..], sub, j)
          ensures OccursAt(s, sub, j + 1)
        {
          OccursAtTail(s, sub, j);
        }
      }
    }
  }

  /** A string that lacks the first character of a non-empty `sub` does not contain `sub`. */
  lemma ContainsNeedsHead(s: string, sub: string)
    requires |sub| > 0 && sub[0] !in s
    ensures !Contains(s, sub)
  {
    ContainsIff(s, sub);
    forall i
      ensures OccursAt(s, sub, i) ==> s[i] == sub[0]
    {
      if 0 <= i && i + |sub| <= |s| {
        assert s[i..i + |sub|][0] == s[i];
      }
    }
  }

  /** Index of the first `c` in `s`, or -1 when there is none. */
  function IndexOf(s: string, c: char): (r: int)
    ensures -1 <= r < |s|
    ensures r == -1 <==> c !in s
    ensures 0 <= r ==> s[r] == c && c !in s[..r]
  {
    if s == [] then -1
    else if s[0] == c then 0
    else
      var k := IndexOf(s[1..], c);
      if k == -1 then -1
      else
        assert s[..k + 1] == [s[0]] + s[1..][..k];
        k + 1
  }

  /** `strings.SplitN(s, [sep], 2)`: the whole string when `sep` does not
      occur, otherwise the text before the first `sep` and the text after it. */
  function SplitOnce(s: string, sep: char): (parts: seq<string>)
    ensures |parts| == 1 || |parts| == 2
    ensures |parts| == 1 <==> sep !in s
    ensures |parts| == 1 ==> parts[0] == s
    ensures |parts| == 2 ==> parts[0] + [sep] + parts[1] == s && sep !in parts[0]
  {
    var i := IndexOf(s, sep);
    if i == -1 then [s]
    else
      assert s[..i] + [sep] + s[i + 1..] == s;
      [s[..i], s[i + 1..]]
  }

  /** Splitting a joined string recovers its two halves when the first half
      has no separator. */
  lemma SplitOnceJoin(a: string, sep: char, b: string)
    requires sep !in a
    ensures SplitOnce(a + [sep] + b, sep) == [a, b]
  {
    var s := a + [sep] + b;
    assert s[|a|] == sep;
    var r := IndexOf(s, sep);
    assert forall j :: 0 <= j < |a| ==> s[j] == a[j];
    assert r <= |a| by {
      assert forall j :: 0 <= j < r ==> s[..r][j] == s[j];
    }
    assert s[..|a|] == a;
    assert s[|a| + 1..] == b;
  }
}
