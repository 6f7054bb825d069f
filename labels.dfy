/** The two-letter labels shown in front of selectable menu entries:
    `n_alpha` encodes an ordinal, `alpha_nth` decodes one. */
module Labels {
  import opened Wrappers
  import opened Text

  predicate IsLower(c: char)
  {
    'a' <= c <= 'z'
  }

  /** Truncating cast to `u8`, then wrapping `u8` addition to 'a' (97), as the
      release build computes it; the result is read back as a Latin-1 char. */
  function LetterAt(k: nat): char
  {
    ((97 + k % 256) % 256) as char
  }

  /** `n_alpha`: first letter from `n / 26`, second from `n % 26`. There is no
      bound check, so for `n >= 676` the first character leaves 'a'..'z'. */
  function NAlpha(n: u16): (r: (char, char))
    ensures IsLower(r.1)
    ensures n < 676 ==> IsLower(r.0)
  {
    (LetterAt(n / 26), LetterAt(n % 26))
  }

  /** `alpha_nth`: both characters must be lowercase letters; the ordinal is
      then below 676. */
  function AlphaNth(p: (char, char)): (r: Option<u16>)
    ensures r.Some? <==> IsLower(p.0) && IsLower(p.1)
    ensures r.Some? ==> r.value < 676
  {
    if p.0 > 'z' || p.0 < 'a' then None
    else if p.1 > 'z' || p.1 < 'a' then None
    else
      var d1 := p.0 as int - 'a' as int;
      var d2 := p.1 as int - 'a' as int;
      Some(d1 * 26 + d2)
  }

  /** Decoding an encoded ordinal below 676 gives it back. */
  lemma DecodeEncode(n: u16)
    requires n < 676
    ensures IsLower(NAlpha(n).0) && IsLower(NAlpha(n).1)
    ensures AlphaNth(NAlpha(n)) == Some(n)
  {
    assert n / 26 < 26;
  }

  /** Encoding a decoded label gives it back: `AlphaNth` is injective and
      `NAlpha` maps 0..675 onto all pairs of lowercase letters. */
  lemma EncodeDecode(p: (char, char))
    requires IsLower(p.0) && IsLower(p.1)
    ensures NAlpha(AlphaNth(p).value) == p
  {
    var d1 := p.0 as int - 'a' as int;
    var d2 := p.1 as int - 'a' as int;
    var n := d1 * 26 + d2;
    assert n / 26 == d1 && n % 26 == d2;
  }

  /** Over the whole `u16` range: the label of `n` decodes only when the
      wrapped first letter falls back into 'a'..'z', and then to `n` modulo
      6656 = 26 * 256. Ordinals 676..4133 give a first character past 'z' and
      never decode; larger ones wrap and alias a smaller ordinal. */
  lemma DecodeEncodeWide(n: u16)
    ensures AlphaNth(NAlpha(n)) == if (n / 26) % 256 < 26 then Some(n % 6656) else None
    ensures 676 <= n < 4134 ==> NAlpha(n).0 > 'z'
  {
    var k := (n / 26) % 256;
    WrapArith(n);
    if k < 26 {
      assert NAlpha(n) == (('a' as int + k) as char, ('a' as int + n % 26) as char);
    }
    if 676 <= n < 4134 {
      assert 26 <= n / 26 < 159;
    }
  }

  /** The ordinal modulo 6656 = 26 * 256, written with the wrapped first
      digit and the second digit. */
  lemma WrapArith(n: nat)
    ensures n % 6656 == 26 * ((n / 26) % 256) + n % 26
  {
    var q := n / 26;
    var r := n % 26;
    var k := q % 256;
    assert n == 6656 * (q / 256) + (26 * k + r);
    assert 0 <= 26 * k + r < 6656;
  }
}
