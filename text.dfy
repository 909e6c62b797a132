/**
 * The handful of Python string operations the scrapers and aggregators are built from:
 * `str.split` / `re.split` on single characters, `str.split` on a word, `str.strip`,
 * the `in` substring test, `str.isdigit`, `int(...)`, `str(n)`, ASCII `str.lower`
 * and UTF-8 `str.encode`.
 */
module Text {
  import opened Wrappers

  type byte = x: int | 0 <= x < 256

  // ---------------------------------------------------------------- splitting

  /** `s.split(c)` when `seps == {c}`, and `re.split('[...]', s)` for a character class `seps`. */
  function Split(s: string, seps: set<char>): (parts: seq<string>)
    ensures |parts| >= 1
  {
    if s == [] then [[]]
    else
      var rest := Split(s[1..], seps);
      if s[0] in seps then [[]] + rest
      else [[s[0]] + rest[0]] + rest[1..]
  }

  /** Python's `sep.join(parts)`. */
  function Join(parts: seq<string>, sep: char): string
  {
    if |parts| == 0 then []
    else if |parts| == 1 then parts[0]
    else parts[0] + [sep] + Join(parts[1..], sep)
  }

  function Last<T>(xs: seq<T>): T
    requires |xs| > 0
  {
    xs[|xs| - 1]
  }

  /** Joining the pieces back with the separator gives the original string. */
  lemma {:induction false} SplitJoin(s: string, c: char)
    ensures Join(Split(s, {c}), c) == s
  {
    if s != [] {
      SplitJoin(s[1..], c);
      var rest := Split(s[1..], {c});
      if s[0] != c {
        if |rest| > 1 {
          assert Join(rest, c) == rest[0] + [c] + Join(rest[1..], c);
          assert ([s[0]] + rest[0]) + [c] + Join(rest[1..], c) == [s[0]] + Join(rest, c);
        }
      }
    }
  }

  /** No piece contains a separator, and every character of a piece occurs in the input. */
  lemma {:induction false} SplitPieces(s: string, seps: set<char>)
    ensures forall p, ch :: p in Split(s, seps) && ch in p ==> ch !in seps && ch in s
  {
    if s != [] {
      SplitPieces(s[1..], seps);
      var rest := Split(s[1..], seps);
      forall p, ch | p in Split(s, seps) && ch in p ensures ch !in seps && ch in s {
        if s[0] in seps {
          assert p in rest;
        } else if p == [s[0]] + rest[0] {
          assert rest[0] in rest;
          if ch != s[0] { assert ch in rest[0]; }
        } else {
          assert p in rest[1..];
          assert p in rest;
        }
      }
    }
  }

  /** The last piece is the suffix after the last separator (all of `s` when there is none);
      with SplitPieces, it holds no separator. */
  lemma {:induction false} LastPieceIsSuffix(s: string, seps: set<char>)
    ensures var l := Last(Split(s, seps));
      && |l| <= |s| && l == s[|s| - |l|..]
      && (|l| < |s| ==> s[|s| - |l| - 1] in seps)
      && (|Split(s, seps)| == 1 ==> l == s)
      && (|Split(s, seps)| > 1 ==> |l| < |s|)
  {
    var l := Last(Split(s, seps));
    if s != [] {
      LastPieceIsSuffix(s[1..], seps);
      var rest := Split(s[1..], seps);
      var t := s[1..];
      if s[0] !in seps && |rest| == 1 {
        assert l == [s[0]] + rest[0];
        assert rest[0] == Last(rest) == t;
      } else {
        assert l == Last(rest);
        assert l == t[|t| - |l|..];
        if |l| < |t| {
          assert t[|t| - |l| - 1] == s[|s| - |l| - 1];
        }
      }
    }
  }

  /** The first piece is the prefix before the first separator (all of `s` when there is none). */
  lemma {:induction false} FirstPieceIsPrefix(s: string, seps: set<char>)
    ensures var f := Split(s, seps)[0];
      && |f| <= |s| && f == s[..|f|]
      && (|f| < |s| ==> s[|f|] in seps)
  {
    if s != [] {
      FirstPieceIsPrefix(s[1..], seps);
    }
  }

  /** Splitting at a separator character splits each side independently. */
  lemma {:induction false} SplitAtSeparator(a: string, c: char, b: string, seps: set<char>)
    requires c in seps
    ensures Split(a + [c] + b, seps) == Split(a, seps) + Split(b, seps)
  {
    if a == [] {
      assert a + [c] + b == [c] + b;
      assert ([c] + b)[1..] == b;
    } else {
      assert (a + [c] + b)[1..] == a[1..] + [c] + b;
      SplitAtSeparator(a[1..], c, b, seps);
    }
  }

  /** A string without separators is a single piece. */
  lemma {:induction false} SplitWithoutSeparators(s: string, seps: set<char>)
    requires forall k :: 0 <= k < |s| ==> s[k] !in seps
    ensures Split(s, seps) == [s]
  {
    if s != [] {
      assert s[0] !in seps;
      SplitWithoutSeparators(s[1..], seps);
      assert [s[0]] + s[1..] == s;
    }
  }

  /** `s.split(word)[0]`: the text before the first occurrence of a non-empty word. */
  function BeforeWord(s: string, word: string): (r: string)
    requires |word| > 0
    ensures |r| <= |s| && r == s[..|r|]
    ensures |r| < |s| ==> word <= s[|r|..]
    ensures forall i :: 0 <= i < |r| ==> !(word <= s[i..])
  {
    if word <= s then []
    else if s == [] then []
    else
      var r := [s[0]] + BeforeWord(s[1..], word);
      assert forall i :: 1 <= i < |r| ==> s[i..] == s[1..][i - 1..];
      r
  }

  // ---------------------------------------------------------------- substring

  /** Python's `sub in s`. */
  predicate Contains(s: string, sub: string)
  {
    sub <= s || (s != [] && Contains(s[1..], sub))
  }

  /** `Contains` holds exactly when `sub` occurs at some position of `s`. */
  lemma {:induction false} ContainsAt(s: string, sub: string)
    ensures Contains(s, sub) <==> exists i :: 0 <= i <= |s| && sub <= s[i..]
  {
    if s != [] {
      ContainsAt(s[1..], sub);
      if Contains(s[1..], sub) {
        var i :| 0 <= i <= |s[1..]| && sub <= s[1..][i..];
        assert s[i + 1..] == s[1..][i..];
      }
      if !(sub <= s) && exists i :: 0 <= i <= |s| && sub <= s[i..] {
        var i :| 0 <= i <= |s| && sub <= s[i..];
        assert i > 0;
        assert s[1..][i - 1..] == s[i..];
      }
    }
  }

  /** A text that contains a word keeps containing it whatever is added around it. */
  lemma {:induction false} ContainsInside(a: string, sub: string, b: string)
    requires Contains(a, sub)
    ensures Contains(a + b, sub) && Contains(b + a, sub)
    decreases |a| + |b|
  {
    if b == [] {
      assert b + a == a && a + b == a;
    } else {
      assert (b + a)[1..] == b[1..] + a;
      ContainsInside(a, sub, b[1..]);
    }
    if sub <= a {
      assert sub <= a + b;
    } else {
      assert a != [] && Contains(a[1..], sub);
      assert (a + b)[1..] == a[1..] + b;
      ContainsInside(a[1..], sub, b);
    }
  }

  // ---------------------------------------------------------------- stripping

  /** The characters `str.strip()` with no argument removes (`str.isspace`). */
  const PythonSpace: set<char> := {
    '\t', '\n', '\U{000B}', '\U{000C}', '\r',
    '\U{001C}', '\U{001D}', '\U{001E}', '\U{001F}', ' ',
    '\U{0085}', '\U{00A0}', '\U{1680}',
    '\U{2000}', '\U{2001}', '\U{2002}', '\U{2003}', '\U{2004}', '\U{2005}',
    '\U{2006}', '\U{2007}', '\U{2008}', '\U{2009}', '\U{200A}',
    '\U{2028}', '\U{2029}', '\U{202F}', '\U{205F}', '\U{3000}'
  }

  /** `s.lstrip(chars)`: the longest suffix of `s` that does not start with one of `chars`. */
  function StripLeft(s: string, chars: set<char>): string
  {
    if s != [] && s[0] in chars then StripLeft(s[1..], chars) else s
  }

  /** `s.rstrip(chars)`: the longest prefix of `s` that does not end with one of `chars`. */
  function StripRight(s: string, chars: set<char>): string
  {
    if s != [] && s[|s| - 1] in chars then StripRight(s[..|s| - 1], chars) else s
  }

  /** `lstrip` removes a prefix made of `chars` only, and keeps the first character that is not. */
  lemma {:induction false} StripLeftShape(s: string, chars: set<char>)
    ensures var r := StripLeft(s, chars);
      && |r| <= |s| && r == s[|s| - |r|..]
      && (forall k :: 0 <= k < |s| - |r| ==> s[k] in chars)
      && (r != [] ==> r[0] !in chars)
  {
    if s != [] && s[0] in chars {
      var t := s[1..];
      StripLeftShape(t, chars);
      var r := StripLeft(t, chars);
      assert StripLeft(s, chars) == r;
      assert t[|t| - |r|..] == s[|s| - |r|..];
      forall k | 0 <= k < |s| - |r| ensures s[k] in chars {
        if k > 0 { assert s[k] == t[k - 1]; }
      }
    }
  }

  /** `rstrip` removes a suffix made of `chars` only, and keeps the last character that is not. */
  lemma {:induction false} StripRightShape(s: string, chars: set<char>)
    ensures var r := StripRight(s, chars);
      && |r| <= |s| && r == s[..|r|]
      && (forall k :: |r| <= k < |s| ==> s[k] in chars)
      && (r != [] ==> r[|r| - 1] !in chars)
  {
    if s != [] && s[|s| - 1] in chars {
      var t := s[..|s| - 1];
      StripRightShape(t, chars);
      var r := StripRight(t, chars);
      assert StripRight(s, chars) == r;
      assert t[..|r|] == s[..|r|];
      forall k | |r| <= k < |s| ensures s[k] in chars {
        if k < |t| { assert s[k] == t[k]; }
      }
    }
  }

  /** `s.strip(chars)`. */
  function Strip(s: string, chars: set<char>): string
  {
    StripRight(StripLeft(s, chars), chars)
  }

  // ---------------------------------------------------------------- digits and integers

  predicate IsDigit(c: char) { '0' <= c <= '9' }

  /** Python's `str.isdigit()` restricted to ASCII digits: false for the empty string. */
  predicate IsDigits(s: string)
  {
    |s| > 0 && forall k :: 0 <= k < |s| ==> IsDigit(s[k])
  }

  /** The decimal value of a string of ASCII digits (`int(s)`). */
  function DigitsValue(s: string): nat
    requires forall k :: 0 <= k < |s| ==> IsDigit(s[k])
  {
    if s == [] then 0
    else
      assert IsDigit(s[|s| - 1]);
      DigitsValue(s[..|s| - 1]) * 10 + (s[|s| - 1] as int - '0' as int)
  }

  /** Leading zeros do not change the value of a digit string. */
  lemma {:induction false} LeadingZeros(z: string, s: string)
    requires forall k :: 0 <= k < |z| ==> z[k] == '0'
    requires forall k :: 0 <= k < |s| ==> IsDigit(s[k])
    ensures DigitsValue(z + s) == DigitsValue(s)
  {
    if s == [] {
      if z != [] {
        assert z + s == z;
        assert z[..|z| - 1] + s == z[..|z| - 1];
        LeadingZeros(z[..|z| - 1], s);
      }
    } else {
      assert (z + s)[..|z + s| - 1] == z + s[..|s| - 1];
      LeadingZeros(z, s[..|s| - 1]);
    }
  }

  /** Python's `str(n)` for a natural number. */
  function NatToString(n: nat): (r: string)
    ensures IsDigits(r) && DigitsValue(r) == n
    ensures r[0] == '0' ==> n == 0
  {
    var d := [('0' as int + n % 10) as char];
    if n < 10 then d
    else
      var r := NatToString(n / 10) + d;
      assert r[..|r| - 1] == NatToString(n / 10);
      r
  }

  /** Python's `str(i)` (f-string formatting) for any integer. */
  function IntToString(i: int): string
  {
    if i < 0 then "-" + NatToString(-i) else NatToString(i)
  }

  /** Python's `int(s)` on text: surrounding whitespace, an optional sign, ASCII digits. */
  function ParseInt(s: string): Option<int>
  {
    var t := Strip(s, PythonSpace);
    if |t| > 0 && (t[0] == '-' || t[0] == '+') && IsDigits(t[1..]) then
      var magnitude: int := DigitsValue(t[1..]);
      Some(if t[0] == '-' then -magnitude else magnitude)
    else if IsDigits(t) then Some(DigitsValue(t))
    else None
  }

  /** `int` reads back what `str` writes, with or without trailing whitespace. */
  lemma ParseIntOfIntToString(i: int, pad: string)
    requires forall k :: 0 <= k < |pad| ==> pad[k] in PythonSpace
    ensures ParseInt(IntToString(i) + pad) == Some(i)
  {
    var s := IntToString(i);
    var whole := s + pad;
    assert s[0] !in PythonSpace;
    assert StripLeft(whole, PythonSpace) == whole;
    assert s[|s| - 1] !in PythonSpace;
    StripRightPad(s, pad, PythonSpace);
    assert Strip(whole, PythonSpace) == s;
    if i < 0 {
      assert s[1..] == NatToString(-i);
    }
  }

  lemma {:induction false} StripLeftPad(pad: string, s: string, chars: set<char>)
    requires s != [] && s[0] !in chars
    requires forall k :: 0 <= k < |pad| ==> pad[k] in chars
    ensures StripLeft(pad + s, chars) == s
  {
    if pad != [] {
      assert (pad + s)[1..] == pad[1..] + s;
      StripLeftPad(pad[1..], s, chars);
    } else {
      assert pad + s == s;
    }
  }

  lemma {:induction false} StripRightPad(s: string, pad: string, chars: set<char>)
    requires s != [] && s[|s| - 1] !in chars
    requires forall k :: 0 <= k < |pad| ==> pad[k] in chars
    ensures StripRight(s + pad, chars) == s
  {
    if pad != [] {
      assert (s + pad)[..|s + pad| - 1] == s + pad[..|pad| - 1];
      StripRightPad(s, pad[..|pad| - 1], chars);
    } else {
      assert s + pad == s;
    }
  }

  /** Stripping removes padding made of `chars` on both sides of a core that neither starts
      nor ends with one of them. */
  lemma StripPadded(lead: string, core: string, trail: string, chars: set<char>)
    requires core != [] && core[0] !in chars && core[|core| - 1] !in chars
    requires forall k :: 0 <= k < |lead| ==> lead[k] in chars
    requires forall k :: 0 <= k < |trail| ==> trail[k] in chars
    ensures Strip(lead + core + trail, chars) == core
  {
    assert (core + trail)[0] == core[0];
    assert lead + core + trail == lead + (core + trail);
    StripLeftPad(lead, core + trail, chars);
    StripRightPad(core, trail, chars);
  }

  // ---------------------------------------------------------------- case and encoding

  predicate IsUpper(c: char) { 'A' <= c <= 'Z' }

  /** Python's `str.lower()` on the ASCII letters. */
  function Lower(s: string): (r: string)
    ensures |r| == |s|
    ensures forall k :: 0 <= k < |s| ==> !IsUpper(r[k])
    ensures forall k :: 0 <= k < |s| ==> (IsUpper(s[k]) ==> r[k] as int == s[k] as int + 32)
    ensures forall k :: 0 <= k < |s| ==> (!IsUpper(s[k]) ==> r[k] == s[k])
  {
    seq(|s|, k requires 0 <= k < |s| =>
      if IsUpper(s[k]) then (s[k] as int + 32) as char else s[k])
  }

  /** UTF-8 bytes of one character (`str.encode()`). */
  function EncodeChar(c: char): (bs: seq<byte>)
    ensures 1 <= |bs| <= 4
    ensures c != '\n' ==> 10 !in bs
  {
    var n := c as int;
    if n < 0x80 then [n]
    else if n < 0x800 then [0xC0 + n / 0x40, 0x80 + n % 0x40]
    else if n < 0x10000 then [0xE0 + n / 0x1000, 0x80 + (n / 0x40) % 0x40, 0x80 + n % 0x40]
    else [0xF0 + n / 0x40000, 0x80 + (n / 0x1000) % 0x40, 0x80 + (n / 0x40) % 0x40, 0x80 + n % 0x40]
  }

  /** `s.encode()`: the UTF-8 encoding of a whole string. */
  function Encode(s: string): (bs: seq<byte>)
    ensures '\n' !in s ==> 10 !in bs
  {
    if s == [] then [] else EncodeChar(s[0]) + Encode(s[1..])
  }
}
