/**
 * The string operations of Python that the assistant relies on, written out
 * explicitly: lower-casing, `strip`, `in` on strings, `split`/`join`,
 * `replace` of one character, and `int()` / `str()` on integers.
 *
 * Character classes are stated, not inherited from Unicode:
 *  - lower-casing maps ASCII A–Z, Cyrillic А–Я and Ё and leaves every other
 *    character alone;
 *  - "alphanumeric" means ASCII letters and digits and the Cyrillic letters
 *    А–я, Ё, ё;
 *  - whitespace is exactly the set of characters for which Python's
 *    `str.isspace()` holds.
 */
module Text {
  import opened Wrappers

  // ---------------------------------------------------------------------------
  // Characters

  predicate IsAsciiDigit(c: char) { '0' <= c <= '9' }

  /** The letters this model knows about: ASCII and Cyrillic (А–я, Ё, ё). */
  predicate IsLetter(c: char) {
    ('A' <= c <= 'Z') || ('a' <= c <= 'z') || ('А' <= c <= 'я') || c == 'Ё' || c == 'ё'
  }

  /** Python's `str.isalnum()` restricted to the letters above and ASCII digits. */
  predicate IsAlnum(c: char) { IsLetter(c) || IsAsciiDigit(c) }

  /** The upper-case letters among them: A–Z, А–Я and Ё. */
  predicate IsUpper(c: char) { ('A' <= c <= 'Z') || ('А' <= c <= 'Я') || c == 'Ё' }

  /** Python's `str.lower()` on one character: ASCII A–Z, Cyrillic А–Я and Ё. */
  function LowerChar(c: char): (r: char)
    ensures IsLetter(c) <==> IsLetter(r)
    ensures !IsLetter(c) ==> r == c
    ensures !IsUpper(r)
    ensures IsUpper(c) ==> r != c && IsLetter(r)
    ensures !IsUpper(c) ==> r == c
  {
    if 'A' <= c <= 'Z' then (c as int + 32) as char
    else if 'А' <= c <= 'Я' then (c as int + 32) as char
    else if c == 'Ё' then 'ё'
    else c
  }

  lemma LowerCharIdempotent(c: char)
    ensures LowerChar(LowerChar(c)) == LowerChar(c)
  {
  }

  /** Python's `str.lower()`. */
  function Lower(s: string): (r: string)
    ensures |r| == |s|
    ensures forall i :: 0 <= i < |s| ==> r[i] == LowerChar(s[i])
  {
    seq(|s|, i requires 0 <= i < |s| => LowerChar(s[i]))
  }

  lemma LowerIdempotent(s: string)
    ensures Lower(Lower(s)) == Lower(s)
  {
    forall i | 0 <= i < |s| ensures Lower(Lower(s))[i] == Lower(s)[i] {
      LowerCharIdempotent(s[i]);
    }
  }

  lemma LowerConcat(a: string, b: string)
    ensures Lower(a + b) == Lower(a) + Lower(b)
  {
    assert forall i :: 0 <= i < |a + b| ==> Lower(a + b)[i] == (Lower(a) + Lower(b))[i];
  }

  /** `string.punctuation`: the 32 ASCII punctuation characters. */
  const PUNCTUATION: string := "!\"#$%&'()*+,-./:;<=>?@[\\]^_`{|}~"

  /** The characters for which Python's `str.isspace()` holds. */
  const WHITESPACE: string :=
    "\t\n\U{b}\U{c}\r\U{1c}\U{1d}\U{1e}\U{1f} \U{85}\U{a0}\U{1680}"
    + "\U{2000}\U{2001}\U{2002}\U{2003}\U{2004}\U{2005}\U{2006}\U{2007}\U{2008}\U{2009}\U{200a}"
    + "\U{2028}\U{2029}\U{202f}\U{205f}\U{3000}"

  lemma PunctuationHasNoLetters(c: char)
    requires c in PUNCTUATION + " "
    ensures !IsLetter(c)
  {
  }

  // ---------------------------------------------------------------------------
  // strip

  /** Python's `str.lstrip(chars)`. */
  function StripLeft(s: string, chars: string): (r: string)
    ensures |r| <= |s| && r == s[|s| - |r|..]
    ensures |r| > 0 ==> r[0] !in chars
    ensures forall i :: 0 <= i < |s| - |r| ==> s[i] in chars
    decreases |s|
  {
    if |s| > 0 && s[0] in chars then
      var r := StripLeft(s[1..], chars);
      assert s[1..][|s| - 1 - |r|..] == s[|s| - |r|..];
      assert forall i :: 1 <= i < |s| - |r| ==> s[i] == s[1..][i - 1];
      r
    else s
  }

  /** Python's `str.rstrip(chars)`. */
  function StripRight(s: string, chars: string): (r: string)
    ensures |r| <= |s| && r == s[..|r|]
    ensures |r| > 0 ==> r[|r| - 1] !in chars
    ensures forall i :: |r| <= i < |s| ==> s[i] in chars
    decreases |s|
  {
    if |s| > 0 && s[|s| - 1] in chars then StripRight(s[..|s| - 1], chars) else s
  }

  /** A slice `s[a..b]` such that everything before `a` and from `b` on is one of `chars`. */
  predicate TrimmedSlice(s: string, chars: string, r: string, a: int, b: int) {
    && 0 <= a <= b <= |s|
    && r == s[a..b]
    && (forall i :: 0 <= i < a ==> s[i] in chars)
    && (forall i :: b <= i < |s| ==> s[i] in chars)
  }

  /** Python's `str.strip(chars)`: neither end of the result is one of `chars`. */
  function StripChars(s: string, chars: string): (r: string)
    ensures |r| <= |s|
    ensures |r| > 0 ==> r[0] !in chars && r[|r| - 1] !in chars
    ensures forall c :: c in r ==> c in s
  {
    StripRight(StripLeft(s, chars), chars)
  }

  /** `strip(chars)` keeps a contiguous slice of `s` and drops only members of `chars`. */
  lemma StripCharsIsSlice(s: string, chars: string)
    ensures exists a, b :: TrimmedSlice(s, chars, StripChars(s, chars), a, b)
  {
    var l := StripLeft(s, chars);
    var r := StripRight(l, chars);
    var a := |s| - |l|;
    assert r == StripChars(s, chars);
    assert r == s[a..a + |r|] by {
      assert l == s[a..] && r == l[..|r|];
    }
    forall i | a + |r| <= i < |s|
      ensures s[i] in chars
    {
      assert s[i] == l[i - a];
    }
    assert TrimmedSlice(s, chars, r, a, a + |r|);
  }

  /** Python's `str.strip()` with no argument. */
  function Strip(s: string): (r: string)
    ensures |r| <= |s|
    ensures |r| > 0 ==> r[0] !in WHITESPACE && r[|r| - 1] !in WHITESPACE
    ensures forall c :: c in r ==> c in s
  {
    StripChars(s, WHITESPACE)
  }

  /** `str.strip()` keeps a contiguous slice of `s` and drops only whitespace. */
  lemma StripIsSlice(s: string)
    ensures exists a, b :: TrimmedSlice(s, WHITESPACE, Strip(s), a, b)
  {
    assert Strip(s) == StripChars(s, WHITESPACE);
    StripCharsIsSlice(s, WHITESPACE);
  }

  /** `lstrip` drops a prefix made of `chars` and stops at the first other character. */
  lemma {:induction false} StripLeftPrefix(x: string, t: string, chars: string)
    requires forall c :: c in x ==> c in chars
    requires |t| > 0 && t[0] !in chars
    ensures StripLeft(x + t, chars) == t
    decreases |x|
  {
    if |x| == 0 {
      assert x + t == t;
    } else {
      assert x[0] in x;
      assert (x + t)[1..] == x[1..] + t;
      assert forall c :: c in x[1..] ==> c in x;
      StripLeftPrefix(x[1..], t, chars);
    }
  }

  /** `rstrip` drops a suffix made of `chars` and stops at the last other character. */
  lemma {:induction false} StripRightSuffix(t: string, y: string, chars: string)
    requires forall c :: c in y ==> c in chars
    requires |t| > 0 && t[|t| - 1] !in chars
    ensures StripRight(t + y, chars) == t
    decreases |y|
  {
    if |y| == 0 {
      assert t + y == t;
    } else {
      var n := |t + y|;
      assert (t + y)[n - 1] == y[|y| - 1] && y[|y| - 1] in y;
      assert (t + y)[..n - 1] == t + y[..|y| - 1];
      assert forall c :: c in y[..|y| - 1] ==> c in y;
      StripRightSuffix(t, y[..|y| - 1], chars);
    }
  }

  /** Whatever surrounds a text that starts and ends outside `chars` is stripped, and the
      text itself, interior characters of `chars` included, is kept. */
  lemma StripCharsFrame(x: string, t: string, y: string, chars: string)
    requires forall c :: c in x ==> c in chars
    requires forall c :: c in y ==> c in chars
    requires |t| > 0 && t[0] !in chars && t[|t| - 1] !in chars
    ensures StripChars(x + t + y, chars) == t
  {
    assert x + t + y == x + (t + y);
    StripLeftPrefix(x, t + y, chars);
    StripRightSuffix(t, y, chars);
  }

  /** Stripping a string that has no stripped character at either end changes nothing. */
  lemma StripCharsNoop(s: string, chars: string)
    requires |s| > 0 ==> s[0] !in chars && s[|s| - 1] !in chars
    ensures StripChars(s, chars) == s
  {
  }

  // ---------------------------------------------------------------------------
  // Substrings, character removal and replacement

  /** Python's `needle in hay` on strings. */
  predicate IsSubstring(needle: string, hay: string) {
    exists i :: 0 <= i <= |hay| - |needle| && OccursAt(needle, hay, i)
  }

  predicate OccursAt(needle: string, hay: string, i: int) {
    0 <= i <= |hay| - |needle| && hay[i..i + |needle|] == needle
  }

  lemma EmptyIsSubstring(hay: string)
    ensures IsSubstring("", hay)
  {
    assert OccursAt("", hay, 0);
  }

  lemma SelfIsSubstring(s: string)
    ensures IsSubstring(s, s)
  {
    assert OccursAt(s, s, 0);
  }

  /** `s` with every character of `cs` deleted. */
  function RemoveChars(s: string, cs: string): (r: string)
    ensures |r| <= |s|
    ensures forall c :: c in r ==> c in s && c !in cs
    decreases |s|
  {
    if |s| == 0 then ""
    else
      assert s == [s[0]] + s[1..];
      (if s[0] in cs then "" else [s[0]]) + RemoveChars(s[1..], cs)
  }

  /** Every character outside `cs` is kept as often as it occurs. */
  lemma {:induction false} RemoveCharsKeepsOthers(s: string, cs: string)
    ensures forall c :: c !in cs ==> multiset(RemoveChars(s, cs))[c] == multiset(s)[c]
    decreases |s|
  {
    if |s| > 0 {
      RemoveCharsKeepsOthers(s[1..], cs);
      assert s == [s[0]] + s[1..];
      assert RemoveChars(s, cs) == (if s[0] in cs then "" else [s[0]]) + RemoveChars(s[1..], cs);
    }
  }

  /** One step of `RemoveChars`: the first character is kept or dropped. */
  lemma RemoveCharsCons(s: string, cs: string)
    requires |s| > 0
    ensures RemoveChars(s, cs) == (if s[0] in cs then "" else [s[0]]) + RemoveChars(s[1..], cs)
  {
  }

  /** Deletion works character by character, so it keeps the order of what it keeps. */
  lemma {:induction false} RemoveCharsConcat(a: string, b: string, cs: string)
    ensures RemoveChars(a + b, cs) == RemoveChars(a, cs) + RemoveChars(b, cs)
    decreases |a|
  {
    if |a| == 0 {
      assert a + b == b;
    } else {
      var h := if a[0] in cs then "" else [a[0]];
      var ra, rb, rt := RemoveChars(a[1..], cs), RemoveChars(b, cs), RemoveChars(a[1..] + b, cs);
      assert RemoveChars(a + b, cs) == h + rt by {
        assert (a + b)[0] == a[0];
        assert (a + b)[1..] == a[1..] + b;
        RemoveCharsCons(a + b, cs);
      }
      assert RemoveChars(a, cs) == h + ra by {
        RemoveCharsCons(a, cs);
      }
      assert rt == ra + rb by {
        RemoveCharsConcat(a[1..], b, cs);
      }
      assert h + (ra + rb) == (h + ra) + rb;
    }
  }

  /** A text with none of `cs` is left as it is. */
  lemma {:induction false} RemoveAbsent(s: string, cs: string)
    requires forall c :: c in s ==> c !in cs
    ensures RemoveChars(s, cs) == s
    decreases |s|
  {
    if |s| > 0 {
      assert s[0] in s;
      assert forall c :: c in s[1..] ==> c in s;
      RemoveAbsent(s[1..], cs);
      assert s == [s[0]] + s[1..];
    }
  }

  /** Deleting the characters of `cs` and then those of `more` deletes those of `cs + more`. */
  lemma {:induction false} RemoveCharsTwice(s: string, cs: string, more: string)
    ensures RemoveChars(RemoveChars(s, cs), more) == RemoveChars(s, cs + more)
    decreases |s|
  {
    if |s| > 0 {
      RemoveCharsTwice(s[1..], cs, more);
      var head := if s[0] in cs then "" else [s[0]];
      assert RemoveChars(s, cs) == head + RemoveChars(s[1..], cs);
      if head == "" {
        assert RemoveChars(s, cs) == RemoveChars(s[1..], cs);
      } else {
        assert RemoveChars(s, cs)[1..] == RemoveChars(s[1..], cs);
      }
    }
  }

  /** Python's `s.replace(old, new)` for single characters. */
  function ReplaceChar(s: string, from: char, to: char): (r: string)
    ensures |r| == |s|
    ensures forall i :: 0 <= i < |s| && s[i] != from ==> r[i] == s[i]
    ensures forall i :: 0 <= i < |s| && s[i] == from ==> r[i] == to
    ensures from != to ==> from !in r
  {
    seq(|s|, i requires 0 <= i < |s| => if s[i] == from then to else s[i])
  }

  // ---------------------------------------------------------------------------
  // split and join

  /** Python's `s.split(sep)` for a one-character separator. */
  function Split(s: string, sep: char): (parts: seq<string>)
    ensures |parts| >= 1
    ensures forall k :: 0 <= k < |parts| ==> sep !in parts[k]
    decreases |s|
  {
    if |s| == 0 then [""]
    else
      var rest := Split(s[1..], sep);
      if s[0] == sep then [""] + rest
      else [[s[0]] + rest[0]] + rest[1..]
  }

  /** Python's `sep.join(parts)`. */
  function Join(parts: seq<string>, sep: char): string
    decreases |parts|
  {
    if |parts| == 0 then ""
    else if |parts| == 1 then parts[0]
    else parts[0] + [sep] + Join(parts[1..], sep)
  }

  /** Joining the pieces of a split gives back the string. */
  lemma {:induction false} JoinSplit(s: string, sep: char)
    ensures Join(Split(s, sep), sep) == s
    decreases |s|
  {
    if |s| > 0 {
      JoinSplit(s[1..], sep);
      var rest := Split(s[1..], sep);
      if s[0] == sep {
        assert Split(s, sep) == [""] + rest;
      } else {
        var parts := Split(s, sep);
        assert parts == [[s[0]] + rest[0]] + rest[1..];
        if |rest| == 1 {
          assert Join(parts, sep) == [s[0]] + rest[0];
        } else {
          assert parts[1..] == rest[1..];
          assert Join(rest, sep) == rest[0] + [sep] + Join(rest[1..], sep);
        }
      }
    }
  }

  /** A first piece that is not empty puts its first character in front of the join. */
  lemma JoinConsHead(parts: seq<string>, sep: char)
    requires |parts| >= 1 && |parts[0]| > 0
    ensures Join(parts, sep) == [parts[0][0]] + Join([parts[0][1..]] + parts[1..], sep)
  {
    var p0 := parts[0];
    var shorter := [p0[1..]] + parts[1..];
    assert shorter[0] == p0[1..] && shorter[1..] == parts[1..];
    if |parts| > 1 {
      assert Join(parts, sep) == p0 + [sep] + Join(parts[1..], sep);
      assert Join(shorter, sep) == p0[1..] + [sep] + Join(parts[1..], sep);
    }
  }

  /** A character other than the separator joins the first part of the split. */
  lemma SplitConsHead(c: char, t: string, sep: char)
    requires c != sep
    ensures Split([c] + t, sep) == [[c] + Split(t, sep)[0]] + Split(t, sep)[1..]
  {
    assert ([c] + t)[0] == c && ([c] + t)[1..] == t;
  }

  /** Splitting a join of separator-free pieces gives back the pieces. */
  lemma {:induction false} SplitJoin(parts: seq<string>, sep: char)
    requires |parts| >= 1
    requires forall k :: 0 <= k < |parts| ==> sep !in parts[k]
    ensures Split(Join(parts, sep), sep) == parts
    decreases |parts|, |parts[0]|
  {
    if |parts[0]| > 0 {
      var p0 := parts[0];
      var shorter := [p0[1..]] + parts[1..];
      assert forall k :: 0 <= k < |shorter| ==> sep !in shorter[k] by {
        forall k | 0 <= k < |shorter| ensures sep !in shorter[k] {
          if k > 0 { assert shorter[k] == parts[k]; }
        }
      }
      SplitJoin(shorter, sep);
      JoinConsHead(parts, sep);
      assert p0[0] != sep by { assert p0[0] in p0; }
      SplitConsHead(p0[0], Join(shorter, sep), sep);
      assert [[p0[0]] + p0[1..]] + parts[1..] == parts by {
        assert [p0[0]] + p0[1..] == p0;
      }
    } else if |parts| > 1 {
      SplitJoin(parts[1..], sep);
      var j := Join(parts, sep);
      assert j == [sep] + Join(parts[1..], sep);
      assert j[1..] == Join(parts[1..], sep);
      assert [""] + parts[1..] == parts;
    } else {
      assert Join(parts, sep) == "";
      assert parts == [""];
    }
  }

  // ---------------------------------------------------------------------------
  // int() and str() on integers

  function DigitChar(d: nat): char
    requires d < 10
  {
    ('0' as int + d) as char
  }

  /** Python's `str(n)` for a natural number: its decimal digits. */
  function NatToString(n: nat): (r: string)
    ensures |r| > 0
    ensures forall i :: 0 <= i < |r| ==> IsAsciiDigit(r[i])
    decreases n
  {
    if n < 10 then [DigitChar(n)] else NatToString(n / 10) + [DigitChar(n % 10)]
  }

  /** Python's `str(n)`. */
  function IntToString(n: int): (r: string)
    ensures |r| > 0
  {
    if n < 0 then "-" + NatToString(-n) else NatToString(n)
  }

  /** `str(n)` is made of digits and at most a leading minus sign. */
  lemma IntToStringChars(n: int)
    ensures forall c :: c in IntToString(n) ==> c == '-' || IsAsciiDigit(c)
  {
    var digits := NatToString(if n < 0 then -n else n);
    assert forall c :: c in digits ==> IsAsciiDigit(c);
  }

  predicate IsDigits(s: string) {
    |s| > 0 && forall i :: 0 <= i < |s| ==> IsAsciiDigit(s[i])
  }

  /** The value of a string of decimal digits, most significant first. */
  function DigitsValue(s: string): (v: int)
    requires forall i :: 0 <= i < |s| ==> IsAsciiDigit(s[i])
    ensures v >= 0
    decreases |s|
  {
    if |s| == 0 then 0
    else assert IsAsciiDigit(s[|s| - 1]); DigitsValue(s[..|s| - 1]) * 10 + (s[|s| - 1] as int - '0' as int)
  }

  lemma {:induction false} DigitsValueOfNatToString(n: nat)
    ensures DigitsValue(NatToString(n)) == n
    decreases n
  {
    if n >= 10 {
      DigitsValueOfNatToString(n / 10);
      var s := NatToString(n);
      assert s[..|s| - 1] == NatToString(n / 10);
    }
  }

  /**
   * Python's `int(s)` on the subset this model accepts: surrounding whitespace,
   * an optional sign, then at least one ASCII digit. Anything else is `None`
   * (Python raises `ValueError`).
   */
  function ParseInt(s: string): Option<int> {
    var t := Strip(s);
    if |t| > 0 && (t[0] == '-' || t[0] == '+') then
      if IsDigits(t[1..]) then
        Some(if t[0] == '-' then -DigitsValue(t[1..]) else DigitsValue(t[1..]))
      else None
    else if IsDigits(t) then Some(DigitsValue(t))
    else None
  }

  lemma DigitIsNotWhitespace(c: char)
    requires IsAsciiDigit(c)
    ensures c !in WHITESPACE
  {
  }

  /** `str(n)` has no surrounding whitespace. */
  lemma StripIntToString(n: int)
    ensures Strip(IntToString(n)) == IntToString(n)
  {
    var s := IntToString(n);
    var digits := NatToString(if n < 0 then -n else n);
    assert s[|s| - 1] == digits[|digits| - 1];
    DigitIsNotWhitespace(digits[|digits| - 1]);
    if n >= 0 {
      DigitIsNotWhitespace(digits[0]);
    }
    StripCharsNoop(s, WHITESPACE);
  }

  lemma ParseNatToString(m: nat)
    ensures ParseInt(NatToString(m)) == Some(m)
  {
    StripIntToString(m);
    DigitsValueOfNatToString(m);
    assert IsDigits(NatToString(m));
  }

  lemma ParseNegative(m: nat)
    requires m > 0
    ensures ParseInt("-" + NatToString(m)) == Some(-(m as int))
  {
    var s := "-" + NatToString(m);
    StripIntToString(-(m as int));
    DigitsValueOfNatToString(m);
    assert s[1..] == NatToString(m);
  }

  /** `int(str(n)) == n`. */
  lemma ParseIntRoundTrip(n: int)
    ensures ParseInt(IntToString(n)) == Some(n)
  {
    if n < 0 {
      ParseNegative(-n);
    } else {
      ParseNatToString(n);
    }
  }
}
