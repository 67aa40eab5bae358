/**
 * The handful of string operations the generator uses: `str::find(..).is_some()`,
 * `str::replace`, `str::to_lowercase` and `{}` formatting of a `usize`.
 */
module Text {

  predicate IsPrefix(p: string, s: string) {
    |p| <= |s| && s[..|p|] == p
  }

  lemma PrefixOfConcat(p: string, s: string)
    ensures IsPrefix(p, p + s)
  {
    assert (p + s)[..|p|] == p;
  }

  lemma ConcatAssoc(a: string, b: string, c: string)
    ensures (a + b) + c == a + (b + c)
  {
  }

  /** `s.find(pat).is_some()`: `pat` occurs somewhere in `s` (the empty pattern always does). */
  predicate Contains(s: string, pat: string)
    decreases |s|
  {
    IsPrefix(pat, s) || (|s| > 0 && Contains(s[1..], pat))
  }

  /**
   * `s.replace(pat, rep)`: scan from the left and replace every non-overlapping
   * occurrence of `pat` by `rep`.
   */
  function Replace(s: string, pat: string, rep: string): string
    requires pat != []
    decreases |s|
  {
    if |s| < |pat| then s
    else if s[..|pat|] == pat then rep + Replace(s[|pat|..], pat, rep)
    else [s[0]] + Replace(s[1..], pat, rep)
  }

  /** A text without any occurrence of the pattern is left as it is. */
  lemma {:induction false} ReplaceAbsent(s: string, pat: string, rep: string)
    requires pat != []
    requires !Contains(s, pat)
    ensures Replace(s, pat, rep) == s
    decreases |s|
  {
    if |s| >= |pat| {
      assert !IsPrefix(pat, s);
      assert |s| > 0;
      ReplaceAbsent(s[1..], pat, rep);
      assert s == [s[0]] + s[1..];
    }
  }

  /** An occurrence of a two-character pattern in `a + b` lies in `a`, in `b`, or across the seam. */
  lemma {:induction false} ContainsPairInConcat(a: string, b: string, pat: string)
    requires |pat| == 2
    ensures Contains(a + b, pat) ==>
              Contains(a, pat) || Contains(b, pat)
              || (a != [] && b != [] && a[|a| - 1] == pat[0] && b[0] == pat[1])
    decreases |a|
  {
    if a == [] {
      assert a + b == b;
    } else {
      assert (a + b)[1..] == a[1..] + b;
      ContainsPairInConcat(a[1..], b, pat);
      if IsPrefix(pat, a + b) && |a| >= 2 {
        assert a[..2] == (a + b)[..2];
      }
      if IsPrefix(pat, a + b) && |a| == 1 {
        assert (a + b)[0] == a[0] && (a + b)[1] == b[0];
        assert pat == [pat[0], pat[1]];
      }
    }
  }

  /** The first character of a replacement result. */
  lemma ReplaceHead(s: string, pat: string, rep: string)
    requires pat != [] && rep != [] && s != []
    ensures Replace(s, pat, rep) != []
    ensures Replace(s, pat, rep)[0] == if IsPrefix(pat, s) then rep[0] else s[0]
  {
  }

  /** The placeholder that field types use for "the lifetime of the structure itself". */
  const Placeholder: string := "'_"

  /**
   * Replacing the placeholder by a lifetime `'m` removes every placeholder, provided the
   * lifetime's name `m` is non-empty, does not start with `_` and contains no apostrophe.
   */
  lemma {:induction false} ReplacePlaceholderComplete(s: string, m: string)
    requires m != [] && m[0] != '_' && '\'' !in m
    ensures !Contains(Replace(s, Placeholder, "'" + m), Placeholder)
    decreases |s|
  {
    var rep := "'" + m;
    if |s| == 1 {
      assert !IsPrefix(Placeholder, s[1..]);
    } else if |s| >= 2 {
      RepFree(m);
      assert rep[|rep| - 1] == m[|m| - 1];
      assert m[|m| - 1] in m;
      if s[..2] == Placeholder {
        var tail := Replace(s[2..], Placeholder, rep);
        ReplacePlaceholderComplete(s[2..], m);
        assert Replace(s, Placeholder, rep) == rep + tail;
        ContainsPairInConcat(rep, tail, Placeholder);
      } else {
        var tail := Replace(s[1..], Placeholder, rep);
        ReplacePlaceholderComplete(s[1..], m);
        assert Replace(s, Placeholder, rep) == [s[0]] + tail;
        ContainsPairInConcat([s[0]], tail, Placeholder);
        assert !Contains([s[0]], Placeholder) by {
          assert !IsPrefix(Placeholder, [s[0]]);
          assert [s[0]][1..] == [];
          assert !IsPrefix(Placeholder, [s[0]][1..]);
        }
        ReplaceHead(s[1..], Placeholder, rep);
        assert s[..2] == [s[0], s[1]];
        assert IsPrefix(Placeholder, s[1..]) ==> tail[0] == '\'';
        assert !IsPrefix(Placeholder, s[1..]) ==> tail[0] == s[1];
      }
    }
  }

  /** The lifetime `'m` itself holds no placeholder under the conditions above. */
  lemma RepFree(m: string)
    requires m != [] && m[0] != '_' && '\'' !in m
    ensures !Contains("'" + m, Placeholder)
  {
    var rep := "'" + m;
    assert !IsPrefix(Placeholder, rep) by { assert rep[1] == m[0]; }
    assert rep[1..] == m;
    NoCharNoContains(m, Placeholder, '\'');
  }

  /** A text lacking some character of the pattern cannot contain the pattern. */
  lemma {:induction false} NoCharNoContains(s: string, pat: string, c: char)
    requires c in pat && c !in s
    ensures !Contains(s, pat)
    decreases |s|
  {
    if |pat| <= |s| {
      var i :| 0 <= i < |pat| && pat[i] == c;
      assert s[..|pat|][i] != c;
    }
    if |s| > 0 {
      NoCharNoContains(s[1..], pat, c);
    }
  }

  /** A text of the form `a + pat + b` contains `pat`. */
  lemma {:induction false} ContainsInfix(a: string, pat: string, b: string)
    ensures Contains(a + pat + b, pat)
    decreases |a|
  {
    if a == [] {
      assert a + pat + b == pat + b;
      assert (pat + b)[..|pat|] == pat;
    } else {
      ContainsInfix(a[1..], pat, b);
      assert (a + pat + b)[1..] == a[1..] + pat + b;
    }
  }

  /** An occurrence in the left part of a concatenation is an occurrence in the whole. */
  lemma {:induction false} ContainsLeft(a: string, b: string, pat: string)
    requires Contains(a, pat)
    ensures Contains(a + b, pat)
    decreases |a|
  {
    if IsPrefix(pat, a) {
      assert (a + b)[..|pat|] == a[..|pat|];
    } else {
      ContainsLeft(a[1..], b, pat);
      assert (a + b)[1..] == a[1..] + b;
    }
  }

  /** An occurrence in the right part of a concatenation is an occurrence in the whole. */
  lemma {:induction false} ContainsRight(a: string, b: string, pat: string)
    requires Contains(b, pat)
    ensures Contains(a + b, pat)
    decreases |a|
  {
    if a == [] {
      assert a + b == b;
    } else {
      ContainsRight(a[1..], b, pat);
      assert (a + b)[1..] == a[1..] + b;
    }
  }

  lemma ContainsSelf(pat: string)
    ensures Contains(pat, pat)
  {
    assert pat[..|pat|] == pat;
  }

  /** A prefix of `a` is a prefix of every extension of `a`. */
  lemma PrefixExtends(p: string, a: string, b: string)
    requires IsPrefix(p, a)
    ensures IsPrefix(p, a + b)
  {
    assert (a + b)[..|p|] == a[..|p|];
  }

  /** The parts `f(1)`, ..., `f(n)`, concatenated in that order. */
  function Concat(f: nat -> string, n: nat): string {
    if n == 0 then "" else Concat(f, n - 1) + f(n)
  }

  /** Concatenating more parts keeps every text already there. */
  lemma {:induction false} ConcatGrows(f: nat -> string, m: nat, n: nat, pat: string)
    requires m <= n && Contains(Concat(f, m), pat)
    ensures Contains(Concat(f, n), pat)
    decreases n
  {
    if m < n {
      ConcatGrows(f, m, n - 1, pat);
      ContainsLeft(Concat(f, n - 1), f(n), pat);
    }
  }

  /** Each of the parts `f(1)`, ..., `f(n)` occurs in their concatenation. */
  lemma ConcatHasPart(f: nat -> string, k: nat, n: nat)
    requires 1 <= k <= n
    ensures Contains(Concat(f, n), f(k))
  {
    ContainsSelf(f(k));
    ContainsRight(Concat(f, k - 1), f(k), f(k));
    ConcatGrows(f, k, n, f(k));
  }

  /** Part j is immediately followed by part j+1 in the concatenation. */
  lemma ConcatAdjacent(f: nat -> string, j: nat, n: nat, a: string, b: string)
    requires 1 <= j < n && a == f(j) && b == f(j + 1)
    ensures Contains(Concat(f, n), a + b)
  {
    var pre := Concat(f, j - 1);
    assert Concat(f, j + 1) == pre + (a + b) by {
      assert Concat(f, j) == pre + a;
      ConcatAssoc(pre, a, b);
    }
    ContainsSelf(a + b);
    ContainsRight(pre, a + b, a + b);
    ConcatGrows(f, j + 1, n, a + b);
  }

  /** The texts `ts[0]`, `ts[1]`, ..., concatenated in that order (a `push_str` loop). */
  function Lines(ts: seq<string>): string {
    if ts == [] then "" else ts[0] + Lines(ts[1..])
  }

  /** Every text of the list occurs in the concatenation. */
  lemma {:induction false} LinesHasItem(ts: seq<string>, i: nat)
    requires i < |ts|
    ensures Contains(Lines(ts), ts[i])
    decreases i
  {
    if i == 0 {
      ContainsSelf(ts[0]);
      ContainsLeft(ts[0], Lines(ts[1..]), ts[0]);
    } else {
      LinesHasItem(ts[1..], i - 1);
      ContainsRight(ts[0], Lines(ts[1..]), ts[i]);
    }
  }

  /** Text i is immediately followed by text i+1 in the concatenation. */
  lemma {:induction false} LinesInOrder(ts: seq<string>, i: nat)
    requires i + 1 < |ts|
    ensures Contains(Lines(ts), ts[i] + ts[i + 1])
    decreases i
  {
    if i == 0 {
      var rest := Lines(ts[2..]);
      assert Lines(ts[1..]) == ts[1] + rest by { assert ts[1..][1..] == ts[2..]; }
      ConcatAssoc(ts[0], ts[1], rest);
      ContainsSelf(ts[0] + ts[1]);
      ContainsLeft(ts[0] + ts[1], rest, ts[0] + ts[1]);
    } else {
      LinesInOrder(ts[1..], i - 1);
      ContainsRight(ts[0], Lines(ts[1..]), ts[i] + ts[i + 1]);
    }
  }

  /** `char::to_lowercase` on the ASCII range; every other character is kept. */
  function LowerChar(c: char): char {
    if 'A' <= c <= 'Z' then (c as int + 32) as char else c
  }

  /** `str::to_lowercase`, character by character. */
  function ToLower(s: string): (r: string)
    ensures |r| == |s|
    ensures forall i :: 0 <= i < |s| ==> r[i] == LowerChar(s[i])
  {
    if s == [] then [] else [LowerChar(s[0])] + ToLower(s[1..])
  }

  /** Lower-casing twice is lower-casing once, and leaves no upper-case ASCII letter. */
  lemma {:induction false} ToLowerIdempotent(s: string)
    ensures ToLower(ToLower(s)) == ToLower(s)
    ensures forall i :: 0 <= i < |s| ==> !('A' <= ToLower(s)[i] <= 'Z')
  {
    var l := ToLower(s);
    forall i | 0 <= i < |s|
      ensures LowerChar(l[i]) == l[i] && !('A' <= l[i] <= 'Z')
    {
      LowerCharLower(s[i]);
    }
    assert ToLower(l) == l;
  }

  lemma LowerCharLower(c: char)
    ensures !('A' <= LowerChar(c) <= 'Z') && LowerChar(LowerChar(c)) == LowerChar(c)
  {
  }

  function DigitChar(d: nat): char
    requires d < 10
  {
    ('0' as int + d) as char
  }

  /** `format!("{}", n)` for an unsigned integer: its decimal digits, no leading zero. */
  function NatToString(n: nat): (r: string)
    ensures r != []
    ensures forall i :: 0 <= i < |r| ==> '0' <= r[i] <= '9'
    decreases n
  {
    if n < 10 then [DigitChar(n)] else NatToString(n / 10) + [DigitChar(n % 10)]
  }

  /** The value of a string of decimal digits. */
  function DecimalValue(s: string): nat
    requires forall i :: 0 <= i < |s| ==> '0' <= s[i] <= '9'
    decreases |s|
  {
    if s == [] then 0 else 10 * DecimalValue(s[..|s| - 1]) + (s[|s| - 1] as int - '0' as int)
  }

  /** Reading the decimal text back gives the number: distinct numbers name distinct files. */
  lemma {:induction false} NatToStringRoundTrip(n: nat)
    ensures DecimalValue(NatToString(n)) == n
    decreases n
  {
    var r := NatToString(n);
    if n >= 10 {
      NatToStringRoundTrip(n / 10);
      assert r[..|r| - 1] == NatToString(n / 10);
    }
  }
}
