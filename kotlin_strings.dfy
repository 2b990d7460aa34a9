/**
 * The few Kotlin `String` operations the plugin relies on: `contains`,
 * `startsWith`, `lastIndexOf`, `toLowerCase(Locale.ROOT)` and `capitalize`.
 * Case mapping is modelled on ASCII letters only.
 */
module KotlinStrings {

  /** `s.startsWith(prefix)` */
  predicate StartsWith(s: string, prefix: string) {
    |prefix| <= |s| && s[..|prefix|] == prefix
  }

  /** `t` occurs in `s` starting at position `i`. */
  predicate OccursAt(s: string, t: string, i: int) {
    0 <= i <= |s| - |t| && s[i..i + |t|] == t
  }

  /** `s.contains(t)`: `t` occurs in `s` at some position (case-sensitive). */
  predicate Contains(s: string, t: string) {
    exists i :: 0 <= i <= |s| - |t| && OccursAt(s, t, i)
  }

  /** An occurrence of `t` inside `s` is also one inside any string around `s`. */
  lemma ContainsWithin(a: string, s: string, b: string, t: string)
    requires Contains(s, t)
    ensures Contains(a + s + b, t)
  {
    var i :| 0 <= i <= |s| - |t| && OccursAt(s, t, i);
    var w := a + s + b;
    assert w[|a| + i..|a| + i + |t|] == s[i..i + |t|];
    assert OccursAt(w, t, |a| + i);
  }

  function LowerChar(c: char): char {
    if 'A' <= c <= 'Z' then (c as int - 'A' as int + 'a' as int) as char else c
  }

  function UpperChar(c: char): char {
    if 'a' <= c <= 'z' then (c as int - 'a' as int + 'A' as int) as char else c
  }

  /** `s.toLowerCase(Locale.ROOT)` on ASCII letters. */
  function Lowercase(s: string): (r: string)
    ensures |r| == |s|
    ensures forall i :: 0 <= i < |s| ==> r[i] == LowerChar(s[i])
  {
    if s == [] then [] else [LowerChar(s[0])] + Lowercase(s[1..])
  }

  lemma LowercaseConcat(a: string, b: string)
    ensures Lowercase(a + b) == Lowercase(a) + Lowercase(b)
  {
    var l, r := Lowercase(a + b), Lowercase(a) + Lowercase(b);
    forall i | 0 <= i < |l|
      ensures l[i] == r[i]
    {
      if i < |a| {
        assert (a + b)[i] == a[i];
      } else {
        assert (a + b)[i] == b[i - |a|];
      }
    }
  }

  /** `t` does not occur in `s` when no position it could start at holds its first character. */
  lemma MissingFirstChar(s: string, t: string)
    requires 0 < |t| <= |s| && t[0] !in s[..|s| - |t| + 1]
    ensures !Contains(s, t)
  {
    forall i | 0 <= i <= |s| - |t|
      ensures !OccursAt(s, t, i)
    {
      assert s[..|s| - |t| + 1][i] == s[i];
    }
  }

  /** Lower-casing keeps every occurrence. */
  lemma LowercaseContains(s: string, t: string)
    requires Contains(s, t)
    ensures Contains(Lowercase(s), Lowercase(t))
  {
    var i :| 0 <= i <= |s| - |t| && OccursAt(s, t, i);
    var ls := Lowercase(s);
    assert ls[i..i + |t|] == Lowercase(t) by {
      forall k | 0 <= k < |t|
        ensures ls[i..i + |t|][k] == Lowercase(t)[k]
      {
        assert t[k] == s[i..i + |t|][k];
      }
    }
    assert OccursAt(ls, Lowercase(t), i);
  }

  /** `s.capitalize()`: the first character upper-cased, the rest kept. */
  function Capitalize(s: string): (r: string)
    ensures |r| == |s|
    ensures s != [] ==> 'A' <= s[0] <= 'Z' || 'a' <= s[0] <= 'z' ==> 'A' <= r[0] <= 'Z'
    ensures forall i :: 0 < i < |s| ==> r[i] == s[i]
    ensures Lowercase(r) == Lowercase(s)
  {
    if s == [] then []
    else
      var r := [UpperChar(s[0])] + s[1..];
      assert Lowercase(r)[0] == LowerChar(UpperChar(s[0])) == LowerChar(s[0]);
      r
  }

  /** `s.lastIndexOf(c)`: the last position holding `c`, or -1. */
  function LastIndexOf(s: string, c: char): (r: int)
    ensures -1 <= r < |s|
    ensures r == -1 <==> c !in s
    ensures 0 <= r ==> s[r] == c && forall j :: r < j < |s| ==> s[j] != c
  {
    if s == [] then -1
    else if s[|s| - 1] == c then |s| - 1
    else
      var r := LastIndexOf(s[..|s| - 1], c);
      assert s == s[..|s| - 1] + [s[|s| - 1]];
      r
  }
}
