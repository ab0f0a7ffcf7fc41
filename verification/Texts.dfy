/** Text vocabulary: where a string stands in a text, and replacement. */
module Texts {
  /** The string `s` stands in the text at `i`. */
  predicate At(text: string, i: nat, s: string) {
    i + |s| <= |text| && forall k :: 0 <= k < |s| ==> text[i + k] == s[k]
  }

  lemma AtSplit(text: string, i: nat, a: string, b: string)
    ensures At(text, i, a + b) <==> At(text, i, a) && At(text, i + |a|, b)
  {
    if At(text, i, a + b) {
      forall k | 0 <= k < |a| ensures text[i + k] == a[k] {
        assert (a + b)[k] == a[k];
      }
      forall k | 0 <= k < |b| ensures text[i + |a| + k] == b[k] {
        assert (a + b)[|a| + k] == b[k];
      }
    }
  }

  lemma AtChar(text: string, i: nat, c: char)
    ensures At(text, i, [c]) <==> i < |text| && text[i] == c
  {
    if At(text, i, [c]) {
      assert text[i + 0] == [c][0];
    }
  }

  lemma AtFirst(text: string, i: nat, a: char, s: string)
    ensures At(text, i, [a] + s) <==> i < |text| && text[i] == a && At(text, i + 1, s)
  {
    AtSplit(text, i, [a], s);
    AtChar(text, i, a);
  }

  lemma AtIsSlice(t: string, i: nat, s: string)
    requires At(t, i, s)
    ensures t[i..i + |s|] == s
  {
    forall k | 0 <= k < |s| ensures t[i..i + |s|][k] == s[k] { assert t[i + k] == s[k]; }
  }

  predicate StartsWith(s: string, pat: string) {
    |pat| <= |s| && s[..|pat|] == pat
  }

  /** `pat` occurs somewhere in `s`. */
  predicate Contains(s: string, pat: string) {
    exists i {:trigger s[i..]} :: 0 <= i <= |s| && StartsWith(s[i..], pat)
  }

  /** Left-to-right, non-overlapping replacement of every occurrence of `pat`. */
  function ReplaceAll(s: string, pat: string, with: string): (r: string)
    requires pat != ""
  {
    if s == "" then ""
    else if StartsWith(s, pat) then with + ReplaceAll(s[|pat|..], pat, with)
    else [s[0]] + ReplaceAll(s[1..], pat, with)
  }

  /** Every character replaced by a text of its own. */
  function Subst(s: string, f: char -> string): string {
    if s == "" then "" else f(s[0]) + Subst(s[1..], f)
  }

  lemma {:induction false} ReplaceFirst(x: char, s: string, c: char, with: string)
    ensures ReplaceAll([x] + s, [c], with) == (if x == c then with else [x]) + ReplaceAll(s, [c], with)
  {
    assert ([x] + s)[1..] == s && ([x] + s)[..1] == [x];
  }

  /** Replacing a one-character pattern treats each character by itself. */
  lemma {:induction false} ReplaceOfConcat(a: string, b: string, c: char, with: string)
    ensures ReplaceAll(a + b, [c], with) == ReplaceAll(a, [c], with) + ReplaceAll(b, [c], with)
    decreases |a|
  {
    if a == "" {
      assert a + b == b && ReplaceAll("", [c], with) == "";
    } else {
      hide ReplaceAll;
      ReplaceFirst(a[0], a[1..], c, with);
      ReplaceFirst(a[0], a[1..] + b, c, with);
      assert a == [a[0]] + a[1..] && a + b == [a[0]] + (a[1..] + b);
      ReplaceOfConcat(a[1..], b, c, with);
    }
  }

  lemma {:induction false} ReplaceAbsentChar(s: string, c: char, with: string)
    requires c !in s
    ensures ReplaceAll(s, [c], with) == s
    decreases |s|
  {
    if s != "" {
      ReplaceAbsentChar(s[1..], c, with);
      assert [s[0]] + s[1..] == s;
    }
  }

  lemma {:induction false} SubstOfConcat(a: string, b: string, f: char -> string)
    ensures Subst(a + b, f) == Subst(a, f) + Subst(b, f)
    decreases |a|
  {
    if a == "" {
      assert a + b == b;
    } else {
      assert (a + b)[1..] == a[1..] + b;
      SubstOfConcat(a[1..], b, f);
    }
  }
}
