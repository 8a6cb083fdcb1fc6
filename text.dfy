// String predicates of the JavaScript standard library that the source relies
// on (`includes`, `endsWith`, `split`, `join`), for strings as `seq<char>`.
module Text {

  /** `s.includes(t)` */
  predicate Contains(s: string, t: string) {
    exists i | 0 <= i <= |s| - |t| :: OccursAt(s, t, i)
  }

  /** `t` occurs in `s` starting at index `i`. */
  predicate OccursAt(s: string, t: string, i: int) {
    0 <= i <= |s| - |t| && s[i..i + |t|] == t
  }

  /** `s.endsWith(t)` */
  predicate EndsWith(s: string, t: string) {
    |t| <= |s| && s[|s| - |t|..] == t
  }

  /** No occurrence of `x` immediately followed by `y` in `s`. */
  ghost predicate NoPair(s: string, x: char, y: char) {
    forall i :: 0 <= i < |s| - 1 && s[i] == x ==> s[i + 1] != y
  }

  lemma ContainsInfix(a: string, m: string, z: string, t: string)
    requires Contains(m, t)
    ensures Contains(a + m + z, t)
  {
    var i :| 0 <= i <= |m| - |t| && OccursAt(m, t, i);
    var s := a + m + z;
    assert m[i..i + |t|] == t;
    assert s[|a| + i..|a| + i + |t|] == m[i..i + |t|];
    assert OccursAt(s, t, |a| + i);
  }

  lemma SelfContains(t: string)
    ensures Contains(t, t)
  {
    assert t[0..|t|] == t;
    assert OccursAt(t, t, 0);
  }

  /** A string lacking one of `t`'s characters does not contain `t`. */
  lemma NotContainsByChar(s: string, t: string, k: int)
    requires 0 <= k < |t| && t[k] !in s
    ensures !Contains(s, t)
  {
    forall i | 0 <= i <= |s| - |t|
      ensures !OccursAt(s, t, i)
    {
      assert s[i..i + |t|][k] == s[i + k] && s[i + k] in s;
    }
  }

  /** A string lacking one of `t`'s adjacent pairs does not contain `t`. */
  lemma NotContainsByPair(s: string, t: string, k: int)
    requires 0 <= k < |t| - 1 && NoPair(s, t[k], t[k + 1])
    ensures !Contains(s, t)
  {
    forall i | 0 <= i <= |s| - |t|
      ensures !OccursAt(s, t, i)
    {
      assert s[i..i + |t|][k] == s[i + k] && s[i..i + |t|][k + 1] == s[i + k + 1];
    }
  }

  lemma NoPairConcat(a: string, b: string, x: char, y: char)
    requires NoPair(a, x, y) && NoPair(b, x, y)
    requires a == [] || b == [] || a[|a| - 1] != x || b[0] != y
    ensures NoPair(a + b, x, y)
  {
    var s := a + b;
    forall i | 0 <= i < |s| - 1 && s[i] == x
      ensures s[i + 1] != y
    {
      if i + 1 < |a| {
        assert s[i] == a[i] && s[i + 1] == a[i + 1];
      } else if i + 1 == |a| {
        assert s[i] == a[|a| - 1] && s[i + 1] == b[0];
      } else {
        assert s[i] == b[i - |a|] && s[i + 1] == b[i - |a| + 1];
      }
    }
  }

  /** A domain matches a root exactly, or as a subdomain on a dot boundary. */
  lemma {:induction false} EndsWithDotRoot(d: string, r: string)
    ensures EndsWith(d, "." + r)
       <==> |d| > |r| && d[|d| - |r| - 1] == '.' && d[|d| - |r|..] == r
  {
    if EndsWith(d, "." + r) {
      assert d[|d| - |r| - 1..] == "." + r;
      assert d[|d| - |r| - 1] == ("." + r)[0];
      assert d[|d| - |r|..] == d[|d| - |r| - 1..][1..];
    }
    if |d| > |r| && d[|d| - |r| - 1] == '.' && d[|d| - |r|..] == r {
      assert d[|d| - |r| - 1..] == [d[|d| - |r| - 1]] + d[|d| - |r|..];
    }
  }
}
