/** The pieces of Rust's `str` API the client relies on, over strings of
    Unicode scalar values: byte length in UTF-8, `trim`, `split_once`,
    `split` on a character and on "\r\n", and `parse::<u16>`. */
module Text {
  import opened Wrappers

  /** Rust's `u16`. */
  type u16 = x: int | 0 <= x < 0x1_0000

  const TAB: char := '\t'
  const CRLF: string := "\r\n"

  // ---------------------------------------------------------------------
  // Byte length (`str::len` counts UTF-8 bytes, not characters)
  // ---------------------------------------------------------------------

  /** Number of bytes of the UTF-8 encoding of `c`. */
  function Utf8Width(c: char): nat
  {
    if c as int < 0x80 then 1
    else if c as int < 0x800 then 2
    else if c as int < 0x1_0000 then 3
    else 4
  }

  function ByteLen(s: string): nat
  {
    if s == [] then 0 else Utf8Width(s[0]) + ByteLen(s[1..])
  }

  /** A string never has fewer bytes than characters, and has exactly as many
      only when every character is ASCII. */
  lemma {:induction false} ByteLenAtLeastLength(s: string)
    ensures ByteLen(s) >= |s|
    ensures ByteLen(s) == |s| <==> forall i :: 0 <= i < |s| ==> s[i] as int < 0x80
  {
    if s != [] {
      ByteLenAtLeastLength(s[1..]);
      if ByteLen(s) == |s| {
        forall i | 0 <= i < |s| ensures s[i] as int < 0x80 {
          if i > 0 { assert s[i] == s[1..][i - 1]; }
        }
      }
      if forall i :: 0 <= i < |s| ==> s[i] as int < 0x80 {
        assert forall i :: 0 <= i < |s[1..]| ==> s[1..][i] as int < 0x80 by {
          forall i | 0 <= i < |s[1..]| ensures s[1..][i] as int < 0x80 {
            assert s[1..][i] == s[i + 1];
          }
        }
      }
    }
  }

  /** A string of two bytes is either two ASCII characters or one character
      of two bytes. */
  lemma ByteLenTwo(s: string)
    requires ByteLen(s) == 2
    ensures (|s| == 2 && s[0] as int < 0x80 && s[1] as int < 0x80)
         || (|s| == 1 && Utf8Width(s[0]) == 2)
  {
    ByteLenAtLeastLength(s);
    ByteLenAtLeastLength(s[1..]);
  }

  // ---------------------------------------------------------------------
  // `str::trim`: strips characters with the Unicode White_Space property
  // ---------------------------------------------------------------------

  predicate IsWhitespace(c: char)
  {
    ('\t' <= c <= '\r') || c == ' ' || c == '\U{85}' || c == '\U{A0}'
    || c == '\U{1680}' || ('\U{2000}' <= c <= '\U{200A}')
    || c == '\U{2028}' || c == '\U{2029}' || c == '\U{202F}'
    || c == '\U{205F}' || c == '\U{3000}'
  }

  /** Drops the leading white space: the result is the longest suffix of `s`
      that does not start with white space. */
  function TrimStart(s: string): (r: string)
    ensures |r| <= |s| && r == s[|s| - |r|..]
    ensures forall k :: 0 <= k < |s| - |r| ==> IsWhitespace(s[k])
    ensures r == [] || !IsWhitespace(r[0])
  {
    if |s| > 0 && IsWhitespace(s[0]) then
      var r := TrimStart(s[1..]);
      assert forall k :: 1 <= k < |s| - |r| ==> s[k] == s[1..][k - 1];
      assert s[1..][|s| - 1 - |r|..] == s[|s| - |r|..];
      r
    else s
  }

  /** Drops the trailing white space: the result is the longest prefix of `s`
      that does not end with white space. */
  function TrimEnd(s: string): (r: string)
    ensures |r| <= |s| && r == s[..|r|]
    ensures forall k :: |r| <= k < |s| ==> IsWhitespace(s[k])
    ensures r == [] || !IsWhitespace(r[|r| - 1])
  {
    if |s| > 0 && IsWhitespace(s[|s| - 1]) then TrimEnd(s[..|s| - 1]) else s
  }

  function Trim(s: string): (r: string)
    ensures r == [] || (!IsWhitespace(r[0]) && !IsWhitespace(r[|r| - 1]))
  {
    TrimEnd(TrimStart(s))
  }

  /** Trimming removes exactly the white space padding around a core that
      neither starts nor ends with white space. */
  lemma {:induction false} TrimPadded(pre: string, core: string, post: string)
    requires forall k :: 0 <= k < |pre| ==> IsWhitespace(pre[k])
    requires forall k :: 0 <= k < |post| ==> IsWhitespace(post[k])
    requires core == [] || (!IsWhitespace(core[0]) && !IsWhitespace(core[|core| - 1]))
    ensures Trim(pre + core + post) == core
  {
    var s := pre + core + post;
    if core == [] {
      var w := pre + post;
      assert s == w + [];
      assert forall k :: 0 <= k < |w| ==> IsWhitespace(w[k]) by {
        forall k | 0 <= k < |w| ensures IsWhitespace(w[k]) {
          if k < |pre| { assert w[k] == pre[k]; } else { assert w[k] == post[k - |pre|]; }
        }
      }
      TrimStartPadded(w, []);
      assert TrimStart(s) == [];
    } else {
      assert s == pre + (core + post);
      TrimStartPadded(pre, core + post);
      TrimEndPadded(core, post);
    }
  }

  lemma {:induction false} TrimStartPadded(pre: string, rest: string)
    requires forall k :: 0 <= k < |pre| ==> IsWhitespace(pre[k])
    requires rest == [] || !IsWhitespace(rest[0])
    ensures TrimStart(pre + rest) == rest
  {
    if pre != [] {
      assert (pre + rest)[1..] == pre[1..] + rest;
      TrimStartPadded(pre[1..], rest);
    }
  }

  lemma {:induction false} TrimEndPadded(core: string, post: string)
    requires core != [] && !IsWhitespace(core[|core| - 1])
    requires forall k :: 0 <= k < |post| ==> IsWhitespace(post[k])
    ensures TrimEnd(core + post) == core
  {
    if post != [] {
      var s := core + post;
      assert s[..|s| - 1] == core + post[..|post| - 1];
      TrimEndPadded(core, post[..|post| - 1]);
    } else {
      assert core + post == core;
    }
  }

  // ---------------------------------------------------------------------
  // `str::split_once(c)`
  // ---------------------------------------------------------------------

  /** Splits at the first occurrence of `c`; None when `c` does not occur. */
  function SplitOnce(s: string, c: char): (r: Option<(string, string)>)
    ensures r.None? <==> c !in s
    ensures r.Some? ==> r.value.0 + [c] + r.value.1 == s && c !in r.value.0
  {
    if s == [] then None
    else if s[0] == c then Some(([], s[1..]))
    else
      match SplitOnce(s[1..], c)
      case None => None
      case Some(p) => Some(([s[0]] + p.0, p.1))
  }

  /** The first occurrence of `c` is where the split happens. */
  lemma {:induction false} SplitOnceAt(left: string, c: char, right: string)
    requires c !in left
    ensures SplitOnce(left + [c] + right, c) == Some((left, right))
  {
    var s := left + [c] + right;
    if left == [] {
      assert s[1..] == right;
    } else {
      assert s[1..] == left[1..] + [c] + right;
      SplitOnceAt(left[1..], c, right);
      assert [left[0]] + left[1..] == left;
    }
  }

  // ---------------------------------------------------------------------
  // `str::split(c)` and `str::split("\r\n")`, and their inverse `join`
  // ---------------------------------------------------------------------

  function Join(pieces: seq<string>, sep: string): string
  {
    if |pieces| == 0 then []
    else if |pieces| == 1 then pieces[0]
    else pieces[0] + sep + Join(pieces[1..], sep)
  }

  /** Prepending to the first piece prepends to the joined string. */
  lemma JoinConsFirst(x: char, first: string, rest: seq<string>, sep: string)
    ensures Join([[x] + first] + rest, sep) == [x] + Join([first] + rest, sep)
  {
    var a := [[x] + first] + rest;
    var b := [first] + rest;
    assert a[1..] == rest && b[1..] == rest;
  }

  /** Pieces of `s` between occurrences of `c`, as Rust's `split(c)` yields
      them: there is always at least one piece, no piece contains `c`, and
      joining the pieces with `c` gives `s` back. */
  function Split(s: string, c: char): (r: seq<string>)
    ensures |r| >= 1
    ensures forall i :: 0 <= i < |r| ==> c !in r[i]
    ensures Join(r, [c]) == s
  {
    if s == [] then [[]]
    else
      var rest := Split(s[1..], c);
      if s[0] == c then
        assert Join([[]] + rest, [c]) == [c] + Join(rest, [c]) by {
          assert ([[]] + rest)[1..] == rest;
        }
        [[]] + rest
      else
        JoinConsFirst(s[0], rest[0], rest[1..], [c]);
        assert [rest[0]] + rest[1..] == rest;
        [[s[0]] + rest[0]] + rest[1..]
  }

  /** Splitting a joined string recovers the pieces when none contains `c`. */
  lemma {:induction false} SplitJoin(pieces: seq<string>, c: char)
    requires |pieces| >= 1
    requires forall i :: 0 <= i < |pieces| ==> c !in pieces[i]
    ensures Split(Join(pieces, [c]), c) == pieces
  {
    if |pieces| == 1 {
      SplitFree(pieces[0], c);
    } else {
      SplitJoin(pieces[1..], c);
      SplitAfter(pieces[0], c, Join(pieces[1..], [c]));
      assert [pieces[0]] + pieces[1..] == pieces;
    }
  }

  lemma {:induction false} SplitFree(p: string, c: char)
    requires c !in p
    ensures Split(p, c) == [p]
  {
    if p != [] {
      SplitFree(p[1..], c);
      assert [p[0]] + p[1..] == p;
    }
  }

  lemma {:induction false} SplitAfter(p: string, c: char, t: string)
    requires c !in p
    ensures Split(p + [c] + t, c) == [p] + Split(t, c)
  {
    var s := p + [c] + t;
    if p == [] {
      assert s[1..] == t;
    } else {
      assert s[1..] == p[1..] + [c] + t;
      SplitAfter(p[1..], c, t);
      assert [p[0]] + p[1..] == p;
    }
  }

  /** Number of occurrences of `c` in `s`. */
  function Count(s: string, c: char): nat
  {
    if s == [] then 0 else (if s[0] == c then 1 else 0) + Count(s[1..], c)
  }

  /** `split(c)` yields one piece more than there are occurrences of `c`. */
  lemma {:induction false} SplitCount(s: string, c: char)
    ensures |Split(s, c)| == Count(s, c) + 1
  {
    if s != [] {
      SplitCount(s[1..], c);
    }
  }

  /** True when "\r\n" occurs in `s`. */
  predicate HasCrlf(s: string)
  {
    |s| >= 2 && ((s[0] == '\r' && s[1] == '\n') || HasCrlf(s[1..]))
  }

  /** "\r\n" occurs in a concatenation only inside a part or across the seam. */
  lemma {:induction false} HasCrlfAppend(a: string, b: string)
    ensures HasCrlf(a + b) <==>
      HasCrlf(a) || HasCrlf(b) || (a != [] && b != [] && a[|a| - 1] == '\r' && b[0] == '\n')
  {
    if a == [] {
      assert a + b == b;
    } else {
      assert (a + b)[1..] == a[1..] + b;
      HasCrlfAppend(a[1..], b);
      if |a| == 1 {
        assert a[1..] == [] && !HasCrlf(a);
      } else {
        assert (a + b)[1] == a[1];
        assert a[1..][|a[1..]| - 1] == a[|a| - 1];
      }
    }
  }

  /** Lines of `s` as Rust's `split("\r\n")` yields them: at least one line,
      none containing "\r\n", and joining them with "\r\n" gives `s` back. */
  function SplitLines(s: string): (r: seq<string>)
    ensures |r| >= 1
    ensures forall i :: 0 <= i < |r| ==> !HasCrlf(r[i])
    ensures Join(r, CRLF) == s
  {
    if s == [] then [[]]
    else if |s| >= 2 && s[0] == '\r' && s[1] == '\n' then
      var rest := SplitLines(s[2..]);
      assert Join([[]] + rest, CRLF) == CRLF + Join(rest, CRLF) by {
        assert ([[]] + rest)[1..] == rest;
      }
      [[]] + rest
    else
      var rest := SplitLines(s[1..]);
      JoinConsFirst(s[0], rest[0], rest[1..], CRLF);
      assert [rest[0]] + rest[1..] == rest;
      assert rest[0] != [] ==> rest[0][0] == s[1] by {
        if rest[0] != [] {
          if |rest| > 1 {
            assert Join(rest, CRLF) == rest[0] + (CRLF + Join(rest[1..], CRLF));
          }
        }
      }
      assert !HasCrlf([s[0]] + rest[0]) by {
        HasCrlfAppend([s[0]], rest[0]);
      }
      [[s[0]] + rest[0]] + rest[1..]
  }

  /** Splitting joined lines recovers them when none contains "\r\n". */
  lemma {:induction false} SplitLinesJoin(lines: seq<string>)
    requires |lines| >= 1
    requires forall i :: 0 <= i < |lines| ==> !HasCrlf(lines[i])
    ensures SplitLines(Join(lines, CRLF)) == lines
  {
    if |lines| == 1 {
      SplitLinesFree(lines[0]);
    } else {
      SplitLinesJoin(lines[1..]);
      SplitLinesAfter(lines[0], Join(lines[1..], CRLF));
      assert [lines[0]] + lines[1..] == lines;
    }
  }

  lemma {:induction false} SplitLinesFree(p: string)
    requires !HasCrlf(p)
    ensures SplitLines(p) == [p]
  {
    if p != [] {
      SplitLinesFree(p[1..]);
      assert [p[0]] + p[1..] == p;
    }
  }

  lemma {:induction false} SplitLinesAfter(p: string, t: string)
    requires !HasCrlf(p)
    ensures SplitLines(p + CRLF + t) == [p] + SplitLines(t)
  {
    var s := p + CRLF + t;
    if p == [] {
      assert s[2..] == t;
    } else {
      assert s[1..] == p[1..] + CRLF + t;
      assert |p| == 1 ==> s[1] == '\r';
      assert |p| > 1 ==> s[1] == p[1];
      SplitLinesAfter(p[1..], t);
      assert [p[0]] + p[1..] == p;
    }
  }

  // ---------------------------------------------------------------------
  // `str::parse::<u16>()` and decimal rendering
  // ---------------------------------------------------------------------

  predicate IsDigit(c: char)
  {
    '0' <= c <= '9'
  }

  predicate AllDigits(s: string)
  {
    forall i :: 0 <= i < |s| ==> IsDigit(s[i])
  }

  /** Value of a string of decimal digits, most significant first. */
  function DigitsValue(s: string): nat
    requires AllDigits(s)
  {
    if s == [] then 0
    else 10 * DigitsValue(s[..|s| - 1]) + (s[|s| - 1] as int - '0' as int)
  }

  /** Rust's `u16::from_str`: an optional leading '+', then one or more ASCII
      digits whose value fits in 16 bits. Leading zeros are accepted. */
  function ParseU16(s: string): (r: Option<u16>)
    ensures r.Some? ==> s != [] && s != "+" && (IsDigit(s[0]) || s[0] == '+')
    ensures r.Some? ==> forall i :: 0 < i < |s| ==> IsDigit(s[i])
  {
    var digits := if |s| > 0 && s[0] == '+' then s[1..] else s;
    if digits == [] || !AllDigits(digits) then None
    else if DigitsValue(digits) < 0x1_0000 then Some(DigitsValue(digits))
    else None
  }

  /** Decimal rendering of `n`, without sign or leading zeros. */
  function ShowNat(n: nat): (r: string)
    ensures r != [] && AllDigits(r) && DigitsValue(r) == n
    ensures r[0] != '0' || n == 0
  {
    if n < 10 then ['0' + n as char]
    else
      var r := ShowNat(n / 10) + ['0' + (n % 10) as char];
      assert r[..|r| - 1] == ShowNat(n / 10);
      r
  }

  /** Parsing the decimal rendering of a 16-bit number gives it back, with or
      without a leading '+'. */
  lemma ParseShow(n: u16)
    ensures ParseU16(ShowNat(n)) == Some(n)
    ensures ParseU16("+" + ShowNat(n)) == Some(n)
  {
    assert ("+" + ShowNat(n))[1..] == ShowNat(n);
  }

  /** Numbers of 16 bits or more are refused: `parse` reports overflow. */
  lemma ParseShowOverflow(n: nat)
    requires n >= 0x1_0000
    ensures ParseU16(ShowNat(n)) == None
  {
  }

  /** Any character other than a digit, except one leading '+', makes the
      parse fail; so does the empty string and a lone '+'. */
  lemma ParseRejects(s: string, i: nat)
    requires i < |s| && !IsDigit(s[i]) && !(i == 0 && s[0] == '+')
    ensures ParseU16(s) == None
  {
    if |s| > 0 && s[0] == '+' {
      assert s[1..][i - 1] == s[i];
    }
  }

  lemma ParseRejectsEmpty()
    ensures ParseU16("") == None && ParseU16("+") == None
  {
  }

  /** `k` zero digits. */
  function Zeros(k: nat): (r: string)
    ensures |r| == k && AllDigits(r)
  {
    seq(k, _ => '0')
  }

  /** Leading zeros do not change the value of a digit string. */
  lemma {:induction false} DigitsValueZeros(k: nat, s: string)
    requires AllDigits(s)
    ensures AllDigits(Zeros(k) + s) && DigitsValue(Zeros(k) + s) == DigitsValue(s)
  {
    var z := Zeros(k) + s;
    assert AllDigits(z) by {
      forall i | 0 <= i < |z| ensures IsDigit(z[i]) {
        if i >= k { assert z[i] == s[i - k]; }
      }
    }
    if s == [] {
      if k > 0 {
        assert z[..|z| - 1] == Zeros(k - 1) + [];
        DigitsValueZeros(k - 1, []);
      }
    } else {
      assert z[..|z| - 1] == Zeros(k) + s[..|s| - 1];
      DigitsValueZeros(k, s[..|s| - 1]);
    }
  }

  /** Zero-padded numbers parse to their value when it fits in 16 bits and
      are refused otherwise, with or without a leading '+': every non-empty
      digit string is some number's rendering after some zeros. */
  lemma ParseZeroPadded(k: nat, n: nat)
    ensures ParseU16(Zeros(k) + ShowNat(n)) == (if n < 0x1_0000 then Some(n) else None)
    ensures ParseU16("+" + Zeros(k) + ShowNat(n)) == (if n < 0x1_0000 then Some(n) else None)
  {
    var s := Zeros(k) + ShowNat(n);
    DigitsValueZeros(k, ShowNat(n));
    assert "+" + Zeros(k) + ShowNat(n) == "+" + s;
    ParseDigits(s);
  }

  /** A digit string parses to its value when that fits, signed or not. */
  lemma ParseDigits(s: string)
    requires s != [] && AllDigits(s)
    ensures ParseU16(s) == (if DigitsValue(s) < 0x1_0000 then Some(DigitsValue(s)) else None)
    ensures ParseU16("+" + s) == ParseU16(s)
  {
    assert IsDigit(s[0]);
    assert ("+" + s)[1..] == s;
  }
}
