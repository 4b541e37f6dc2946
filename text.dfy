/**
 * String operations the monitor relies on: Python's `w in s` substring test,
 * `str.lower()` and `str.endswith`, and the decimal rendering of a number
 * (`f"{pid}"`), together with the facts about substrings that the message
 * classifier needs.
 */
module Text {

  /** `w` occurs in `s` starting at position `i`. */
  predicate MatchAt(s: string, w: string, i: int) {
    0 <= i && i + |w| <= |s| && s[i..i + |w|] == w
  }

  /** Python's `w in s` on strings: `w` is a contiguous substring of `s`. */
  predicate Contains(s: string, w: string) {
    exists i | 0 <= i <= |s| - |w| :: MatchAt(s, w, i)
  }

  /** No position of `a` can start an occurrence of `w` that runs into what follows `a`:
      at each position, `w`'s first or second character is contradicted inside `a`,
      or the whole of `w` fits inside `a` and differs from it there. */
  predicate Guarded(a: string, w: string) {
    && w != []
    && forall i {:trigger a[i]} | 0 <= i < |a| ::
         || a[i] != w[0]
         || (i + 1 < |a| && 1 < |w| && a[i + 1] != w[1])
         || (i + |w| <= |a| && a[i..i + |w|] != w)
  }

  /** No character of `s` is `c`. */
  predicate Avoids(s: string, c: char) {
    forall i | 0 <= i < |s| :: s[i] != c
  }

  lemma MatchShift(a: string, b: string, w: string, j: int)
    requires MatchAt(b, w, j)
    ensures MatchAt(a + b, w, |a| + j)
  {
    assert (a + b)[|a| + j..|a| + j + |w|] == b[j..j + |w|];
  }

  lemma MatchExtend(a: string, b: string, w: string, i: int)
    requires MatchAt(a, w, i)
    ensures MatchAt(a + b, w, i)
  {
    assert (a + b)[i..i + |w|] == a[i..i + |w|];
  }

  lemma MatchAtChar(s: string, w: string, i: int, k: int)
    requires MatchAt(s, w, i)
    ensures 0 <= k < |w| ==> s[i + k] == w[k]
  {
    if 0 <= k < |w| {
      assert s[i..i + |w|][k] == s[i + k];
    }
  }

  lemma MatchRestrict(a: string, b: string, w: string, i: int)
    requires MatchAt(a + b, w, i)
    ensures i + |w| <= |a| ==> MatchAt(a, w, i)
  {
    if i + |w| <= |a| {
      assert (a + b)[i..i + |w|] == a[i..i + |w|];
    }
  }

  /** A substring of either part is a substring of the concatenation. */
  lemma ContainsConcat(a: string, b: string, w: string)
    requires Contains(a, w) || Contains(b, w)
    ensures Contains(a + b, w)
  {
    if Contains(a, w) {
      var i :| 0 <= i <= |a| - |w| && MatchAt(a, w, i);
      MatchExtend(a, b, w, i);
    } else {
      var j :| 0 <= j <= |b| - |w| && MatchAt(b, w, j);
      MatchShift(a, b, w, j);
    }
  }

  /** Behind a guarded prefix, `w` occurs in `a + b` exactly when it occurs in `b`. */
  lemma ContainsAfter(a: string, b: string, w: string)
    requires w != [] && Guarded(a, w)
    ensures Contains(a + b, w) <==> Contains(b, w)
  {
    if Contains(b, w) {
      ContainsConcat(a, b, w);
    }
    if Contains(a + b, w) {
      var i :| 0 <= i <= |a + b| - |w| && MatchAt(a + b, w, i);
      GuardedMatchBeyond(a, b, w, i);
      assert b[i - |a|..i - |a| + |w|] == (a + b)[i..i + |w|];
      assert MatchAt(b, w, i - |a|);
    }
  }

  /** An occurrence in `a + b` behind a guarded prefix starts after the prefix. */
  lemma GuardedMatchBeyond(a: string, b: string, w: string, i: int)
    requires Guarded(a, w) && MatchAt(a + b, w, i)
    ensures i >= |a|
  {
    MatchAtChar(a + b, w, i, 0);
    MatchAtChar(a + b, w, i, 1);
    MatchRestrict(a, b, w, i);
    GuardedAt(a, w, i);
    ConcatLeft(a, b, i);
    ConcatLeft(a, b, i + 1);
  }

  lemma GuardedAt(a: string, w: string, i: int)
    requires Guarded(a, w)
    ensures 0 <= i < |a| ==>
              || a[i] != w[0]
              || (i + 1 < |a| && 1 < |w| && a[i + 1] != w[1])
              || (i + |w| <= |a| && a[i..i + |w|] != w)
  {
  }

  lemma ConcatLeft(a: string, b: string, i: int)
    ensures 0 <= i < |a| ==> (a + b)[i] == a[i]
  {
  }

  /** A character that `w` does not contain splits the search in two. */
  lemma ContainsAround(a: string, c: char, b: string, w: string)
    requires c !in w
    ensures Contains(a + [c] + b, w) <==> Contains(a, w) || Contains(b, w)
  {
    var s := a + [c] + b;
    if Contains(a, w) {
      ContainsConcat(a, [c] + b, w);
      assert a + ([c] + b) == s;
    }
    if Contains(b, w) {
      ContainsConcat(a + [c], b, w);
    }
    if Contains(s, w) {
      var i :| 0 <= i <= |s| - |w| && MatchAt(s, w, i);
      MatchAtChar(s, w, i, |a| - i);
      if i + |w| <= |a| {
        assert s[i..i + |w|] == a[i..i + |w|];
        assert MatchAt(a, w, i);
      } else if i > |a| {
        assert s[i..i + |w|] == b[i - |a| - 1..i - |a| - 1 + |w|];
        assert MatchAt(b, w, i - |a| - 1);
      } else {
        assert false;
      }
    }
  }

  /** A trailing character that cannot end `w` adds no occurrence of it. */
  lemma ContainsBeforeChar(a: string, c: char, w: string)
    requires w != [] && w[|w| - 1] != c
    ensures Contains(a + [c], w) <==> Contains(a, w)
  {
    if Contains(a, w) {
      ContainsConcat(a, [c], w);
    }
    if Contains(a + [c], w) {
      var i :| 0 <= i <= |a + [c]| - |w| && MatchAt(a + [c], w, i);
      MatchAtChar(a + [c], w, i, |w| - 1);
      if i + |w| <= |a| {
        assert (a + [c])[i..i + |w|] == a[i..i + |w|];
        assert MatchAt(a, w, i);
      } else {
        assert false;
      }
    }
  }

  /** A string without `w`'s first character does not contain `w`. */
  lemma NotContainsAvoiding(s: string, w: string)
    requires w != [] && Avoids(s, w[0])
    ensures !Contains(s, w)
  {
    if Contains(s, w) {
      assert false;
    }
  }

  /** Python's `str.endswith`. */
  predicate EndsWith(s: string, suffix: string) {
    |suffix| <= |s| && s[|s| - |suffix|..] == suffix
  }

  predicate IsUpper(c: char) {
    'A' <= c <= 'Z'
  }

  /** `s` has no upper-case ASCII letter. */
  predicate Quiet(s: string) {
    forall i | 0 <= i < |s| :: !IsUpper(s[i])
  }

  /** ASCII case folding of one character; other characters are unchanged. */
  function LowerChar(c: char): (r: char)
    ensures !IsUpper(r)
    ensures !IsUpper(c) ==> r == c
    ensures r != c ==> r as int == c as int + 32
  {
    if IsUpper(c) then (c as int + 32) as char else c
  }

  /** Python's `str.lower()`, restricted to ASCII letters: the fold keeps the length,
      leaves no capital behind and changes nothing in a text that has none. */
  function Lower(s: string): (r: string)
    ensures |r| == |s|
    ensures Quiet(r)
    ensures Quiet(s) ==> r == s
  {
    seq(|s|, i requires 0 <= i < |s| => LowerChar(s[i]))
  }

  predicate IsDigit(c: char) {
    '0' <= c <= '9'
  }

  function DigitChar(d: nat): (c: char)
    requires d < 10
    ensures IsDigit(c) && c as int - '0' as int == d
  {
    ('0' as int + d) as char
  }

  /** Python's `str(n)` for a non-negative integer: its decimal digits, no leading zeros. */
  function NatToString(n: nat): string
    decreases n
  {
    if n < 10 then [DigitChar(n)] else NatToString(n / 10) + [DigitChar(n % 10)]
  }

  /** The rendering is a non-empty run of digits ... */
  lemma {:induction false} NatToStringDigits(n: nat)
    ensures |NatToString(n)| >= 1
    ensures forall i | 0 <= i < |NatToString(n)| :: IsDigit(NatToString(n)[i])
    decreases n
  {
    if n >= 10 {
      NatToStringDigits(n / 10);
    }
  }

  /** ... that has at least two digits exactly when the number is at least ten ... */
  lemma NatToStringShort(n: nat)
    ensures |NatToString(n)| == 1 <==> n < 10
  {
    if n >= 10 {
      NatToStringDigits(n / 10);
    }
  }

  /** ... and different numbers render differently. */
  lemma {:induction false} NatToStringInjective(m: nat, n: nat)
    requires NatToString(m) == NatToString(n)
    ensures m == n
    decreases m
  {
    NatToStringShort(m);
    NatToStringShort(n);
    if m >= 10 && n >= 10 {
      var sm, sn := NatToString(m), NatToString(n);
      assert sm[|sm| - 1] == DigitChar(m % 10);
      assert sn[|sn| - 1] == DigitChar(n % 10);
      assert sm[..|sm| - 1] == NatToString(m / 10);
      assert sn[..|sn| - 1] == NatToString(n / 10);
      NatToStringInjective(m / 10, n / 10);
    }
  }

  /** A run of digits contains none of the letters that start the classifier's keywords. */
  lemma DigitsAvoid(s: string, c: char)
    requires forall i | 0 <= i < |s| :: IsDigit(s[i])
    requires !IsDigit(c)
    ensures Avoids(s, c)
  {
  }
}
