/** The Python string built-ins the crawler relies on: `str.strip()`, `str.split()`,
    `int(str)`, `str(int)` and `str.replace(old, '')`. */
module Text {
  import opened Common

  /** Python's `str.isspace()` for one character: the separators `split()` and `strip()` use. */
  predicate IsSpace(c: char)
  {
    || ('\t' <= c <= '\r') || ('\U{1C}' <= c <= '\U{1F}') || c == ' '
    || c == '\U{85}' || c == '\U{A0}' || c == '\U{1680}' || ('\U{2000}' <= c <= '\U{200A}')
    || c == '\U{2028}' || c == '\U{2029}' || c == '\U{202F}' || c == '\U{205F}' || c == '\U{3000}'
  }

  predicate NoSpace(s: string)
  {
    forall k :: 0 <= k < |s| ==> !IsSpace(s[k])
  }

  /** The whitespace `int()` ignores around its argument: every `isspace()` character
      except the four ASCII information separators U+001C to U+001F. */
  predicate IsIntSpace(c: char)
  {
    IsSpace(c) && !('\U{1C}' <= c <= '\U{1F}')
  }

  /** `s.lstrip()` over the characters `ws` accepts: the suffix left after dropping them
      from the front. */
  function StripLeft(s: string, ws: char -> bool): (r: string)
    ensures |r| <= |s|
    decreases |s|
  {
    if s != [] && ws(s[0]) then StripLeft(s[1..], ws) else s
  }

  /** `s.rstrip()` over the characters `ws` accepts: the prefix left after dropping them
      from the back. */
  function StripRight(s: string, ws: char -> bool): (r: string)
    ensures |r| <= |s|
    decreases |s|
  {
    if s != [] && ws(s[|s| - 1]) then StripRight(s[..|s| - 1], ws) else s
  }

  /** `lstrip` drops exactly the leading whitespace: what remains is a suffix that does not
      start with whitespace, and everything dropped is whitespace. */
  lemma {:induction false} StripLeftSpec(s: string, ws: char -> bool)
    ensures var r := StripLeft(s, ws);
      && r == s[|s| - |r|..]
      && (r == [] || !ws(r[0]))
      && (forall k :: 0 <= k < |s| - |r| ==> ws(s[k]))
    decreases |s|
  {
    if s != [] && ws(s[0]) {
      StripLeftSpec(s[1..], ws);
      var r := StripLeft(s, ws);
      forall k | 0 <= k < |s| - |r| ensures ws(s[k]) {
        if k > 0 {
          assert s[k] == s[1..][k - 1];
        }
      }
    }
  }

  /** `rstrip` drops exactly the trailing whitespace. */
  lemma {:induction false} StripRightSpec(s: string, ws: char -> bool)
    ensures var r := StripRight(s, ws);
      && r == s[..|r|]
      && (r == [] || !ws(r[|r| - 1]))
      && (forall k :: |r| <= k < |s| ==> ws(s[k]))
    decreases |s|
  {
    if s != [] && ws(s[|s| - 1]) {
      StripRightSpec(s[..|s| - 1], ws);
      var r := StripRight(s, ws);
      forall k | |r| <= k < |s| ensures ws(s[k]) {
        if k < |s| - 1 {
          assert s[k] == s[..|s| - 1][k];
        }
      }
    }
  }

  /** `s.strip()`. */
  function Strip(s: string): string
  {
    StripRight(StripLeft(s, IsSpace), IsSpace)
  }

  /** The whitespace `int()` ignores, stripped from both ends. */
  function IntStrip(s: string): string
  {
    StripRight(StripLeft(s, IsIntSpace), IsIntSpace)
  }

  /** The characters of `s` that are not whitespace, in order. */
  function RemoveSpaces(s: string): string
    decreases |s|
  {
    if s == [] then []
    else RemoveSpaces(s[..|s| - 1]) + (if IsSpace(s[|s| - 1]) then [] else [s[|s| - 1]])
  }

  /** The tokens of `s` followed by the partial token `cur`, scanning `s` from the right. */
  function SplitFrom(s: string, cur: string): (r: seq<string>)
    requires NoSpace(cur)
    ensures forall t | t in r :: t != [] && NoSpace(t)
    decreases |s|
  {
    if s == [] then (if cur == [] then [] else [cur])
    else if IsSpace(s[|s| - 1]) then SplitFrom(s[..|s| - 1], []) + (if cur == [] then [] else [cur])
    else SplitFrom(s[..|s| - 1], [s[|s| - 1]] + cur)
  }

  /** `s.split()` with no separator: the maximal runs of non-whitespace characters. */
  function Split(s: string): (r: seq<string>)
    ensures forall t | t in r :: t != [] && NoSpace(t)
  {
    SplitFrom(s, [])
  }

  lemma {:induction false} SplitFromJoin(s: string, cur: string)
    requires NoSpace(cur)
    ensures Flatten(SplitFrom(s, cur)) == RemoveSpaces(s) + cur
    decreases |s|
  {
    if s == [] {
    } else {
      var init, c := s[..|s| - 1], s[|s| - 1];
      if IsSpace(c) {
        var tail: seq<string> := if cur == [] then [] else [cur];
        SplitFromJoin(init, []);
        FlattenAppend(SplitFrom(init, []), tail);
        assert Flatten(tail) == cur;
      } else {
        SplitFromJoin(init, [c] + cur);
        assert RemoveSpaces(init) + ([c] + cur) == (RemoveSpaces(init) + [c]) + cur;
      }
    }
  }

  /** Joining the tokens of `split()` gives back the text without its whitespace:
      splitting loses nothing but separators. */
  lemma SplitJoin(s: string)
    ensures Flatten(Split(s)) == RemoveSpaces(s)
  {
    SplitFromJoin(s, []);
  }

  lemma {:induction false} SplitFromPeel(x: string, t: string, cur: string)
    requires NoSpace(t) && NoSpace(cur)
    ensures SplitFrom(x + t, cur) == SplitFrom(x, t + cur)
    decreases |t|
  {
    if t == [] {
      assert x + t == x;
      assert t + cur == cur;
    } else {
      var init, c := t[..|t| - 1], t[|t| - 1];
      assert (x + t)[..|x + t| - 1] == x + init;
      assert (x + t)[|x + t| - 1] == c;
      SplitFromPeel(x, init, [c] + cur);
      assert init + ([c] + cur) == t + cur;
    }
  }

  /** A token written after a blank becomes the last token of `split()`. */
  lemma SplitAppendToken(a: string, t: string)
    requires t != [] && NoSpace(t)
    ensures Split(a + " " + t) == Split(a) + [t]
  {
    SplitFromPeel(a + " ", t, []);
    assert t + [] == t;
    assert (a + " ")[..|a + " "| - 1] == a;
  }

  /** A text without whitespace is a single token (or none, when it is empty). */
  lemma SplitToken(t: string)
    requires t != [] && NoSpace(t)
    ensures Split(t) == [t]
  {
    SplitFromPeel([], t, []);
    assert [] + t == t && t + [] == t;
  }

  lemma {:induction false} SplitFromAfterBlank(a: string, w: char, c: string, cur: string)
    requires IsSpace(w) && NoSpace(cur)
    ensures SplitFrom(a + [w] + c, cur) == Split(a) + SplitFrom(c, cur)
    decreases |c|
  {
    var s := a + [w] + c;
    if c == [] {
      assert s == a + [w];
      assert s[..|s| - 1] == a;
    } else {
      var init, ch := c[..|c| - 1], c[|c| - 1];
      assert s[..|s| - 1] == a + [w] + init;
      assert s[|s| - 1] == ch;
      if IsSpace(ch) {
        SplitFromAfterBlank(a, w, init, []);
      } else {
        SplitFromAfterBlank(a, w, init, [ch] + cur);
      }
    }
  }

  /** Any whitespace character separates tokens: the tokens of `a + [w] + c` are those of
      `a` followed by those of `c`, so no token spans whitespace. */
  lemma SplitAtBlank(a: string, w: char, c: string)
    requires IsSpace(w)
    ensures Split(a + [w] + c) == Split(a) + Split(c)
  {
    SplitFromAfterBlank(a, w, c, []);
  }

  predicate IsDigit(c: char)
  {
    '0' <= c <= '9'
  }

  function DigitValue(c: char): (d: nat)
    requires IsDigit(c)
    ensures d < 10
  {
    (c as int) - ('0' as int)
  }

  function DigitChar(d: nat): (c: char)
    requires d < 10
    ensures IsDigit(c) && DigitValue(c) == d
  {
    (('0' as int) + d) as char
  }

  /** The body Python's `int()` accepts in base 10: digits, with single underscores
      allowed between two digits. */
  predicate WellFormedDigits(s: string)
  {
    && |s| > 0 && IsDigit(s[0]) && IsDigit(s[|s| - 1])
    && (forall k :: 0 <= k < |s| ==> IsDigit(s[k]) || s[k] == '_')
    && (forall k :: 0 <= k < |s| - 1 ==> s[k] == '_' ==> s[k + 1] != '_')
  }

  /** Value of a digit string with optional `_` separators, or `None` when `int()` would
      raise `ValueError`. */
  function ParseDigits(s: string): (r: Option<nat>)
    ensures r.Some? <==> WellFormedDigits(s)
    decreases |s|
  {
    if s == [] || !IsDigit(s[|s| - 1]) then None
    else if |s| == 1 then Some(DigitValue(s[0]))
    else
      var init := s[..|s| - 1];
      var body := if init[|init| - 1] == '_' then init[..|init| - 1] else init;
      match ParseDigits(body)
      case None => None
      case Some(v) => Some(10 * v + DigitValue(s[|s| - 1]))
  }

  /** Python's `int(s)` on a string: surrounding `int()` whitespace is ignored and one
      leading sign is allowed; `None` stands for the `ValueError` it raises otherwise. */
  function ParseInt(s: string): (r: Option<int>)
    ensures r.Some? ==> var t := IntStrip(s); t != [] && IsDigit(t[|t| - 1])
  {
    var t := IntStrip(s);
    if t != [] && (t[0] == '-' || t[0] == '+') then
      match ParseDigits(t[1..])
      case None => None
      case Some(v) => var n: int := v; Some(if t[0] == '-' then -n else n)
    else
      match ParseDigits(t)
      case None => None
      case Some(v) => Some(v)
  }

  /** Python's `str(n)` (and `f'{n}'`) for a non-negative integer: decimal digits,
      no leading zero. */
  function NatToString(n: nat): (s: string)
    ensures |s| > 0 && IsDigit(s[0]) && IsDigit(s[|s| - 1])
    ensures forall k :: 0 <= k < |s| ==> IsDigit(s[k])
    ensures s[0] == '0' ==> n == 0
    decreases n
  {
    if n < 10 then [DigitChar(n)] else NatToString(n / 10) + [DigitChar(n % 10)]
  }

  /** Decimal rendering and parsing are inverse: `int(str(n)) == n`. */
  lemma {:induction false} ParseDigitsOfNatToString(n: nat)
    ensures ParseDigits(NatToString(n)) == Some(n)
    decreases n
  {
    if n >= 10 {
      var s := NatToString(n);
      var init := NatToString(n / 10);
      assert s[..|s| - 1] == init;
      ParseDigitsOfNatToString(n / 10);
    }
  }

  lemma ParseIntOfNatToString(n: nat)
    ensures ParseInt(NatToString(n)) == Some(n)
  {
    var s := NatToString(n);
    assert !IsIntSpace(s[0]) && !IsIntSpace(s[|s| - 1]);
    assert StripLeft(s, IsIntSpace) == s;
    assert StripRight(s, IsIntSpace) == s;
    assert s[0] != '-' && s[0] != '+';
    ParseDigitsOfNatToString(n);
  }

  /** `s` holds `pat` starting at index `i`. */
  predicate OccursAt(s: string, pat: string, i: nat)
  {
    i + |pat| <= |s| && s[i..i + |pat|] == pat
  }

  ghost predicate Occurs(s: string, pat: string)
  {
    exists i: nat :: i <= |s| && OccursAt(s, pat, i)
  }

  /** `s.replace(pat, '')`: scanning left to right, every non-overlapping occurrence of
      `pat` is dropped. */
  function RemoveAll(s: string, pat: string): (r: string)
    requires pat != []
    ensures |r| <= |s|
    decreases |s|
  {
    if |s| < |pat| then s
    else if s[..|pat|] == pat then RemoveAll(s[|pat|..], pat)
    else [s[0]] + RemoveAll(s[1..], pat)
  }

  lemma {:induction false} RemoveAllNoOccurrence(s: string, pat: string)
    requires pat != [] && !Occurs(s, pat)
    ensures RemoveAll(s, pat) == s
    decreases |s|
  {
    if |s| >= |pat| {
      assert !OccursAt(s, pat, 0);
      assert s[0..|pat|] == s[..|pat|];
      forall i: nat | OccursAt(s[1..], pat, i) ensures OccursAt(s, pat, i + 1) {
        assert s[1..][i..i + |pat|] == s[i + 1..i + 1 + |pat|];
      }
      RemoveAllNoOccurrence(s[1..], pat);
    }
  }

  lemma {:induction false} RemoveAllShrinks(s: string, pat: string, i: nat)
    requires pat != [] && OccursAt(s, pat, i)
    ensures |RemoveAll(s, pat)| < |s|
    decreases |s|
  {
    if s[..|pat|] != pat {
      assert i != 0 by { assert s[0..|pat|] == s[..|pat|]; }
      assert s[1..][i - 1..i - 1 + |pat|] == s[i..i + |pat|];
      RemoveAllShrinks(s[1..], pat, i - 1);
    }
  }

  /** `replace` leaves the string as it is exactly when the pattern does not occur in it. */
  lemma RemoveAllUnchangedIff(s: string, pat: string)
    requires pat != []
    ensures RemoveAll(s, pat) == s <==> !Occurs(s, pat)
  {
    if Occurs(s, pat) {
      var i: nat :| OccursAt(s, pat, i);
      RemoveAllShrinks(s, pat, i);
    } else {
      RemoveAllNoOccurrence(s, pat);
    }
  }
}
