/**
 The strings of a candidate row (src/ui/panel/layout.c): the label and the text that
 are shaped for it, as the cache of shaped text is asked for them.
 */
module CandidateText {
  import opened Common

  /** A missing caption or comment is ""; a candidate whose text is missing shows nothing. */
  datatype Candidate = Candidate(text: string, caption: string, comment: string) | NoText

  /** The colour-independent identity of a row's layouts. */
  datatype Identity = Identity(caption: string, text: string, captionFont: string, font: string)

  /** An identity that the buffers of an entry hold without loss. */
  predicate Fits(id: Identity) {
    |id.caption| < 64 && |id.text| < 512 && |id.captionFont| < 96 && |id.font| < 96
  }

  function Digits(n: nat): string {
    (if n < 10 then [] else Digits(n / 10)) + [(n % 10) as char + '0']
  }

  /** format_candidate_parts and the two fonts: the identity of row `i`. */
  function RowIdentity(c: Candidate, i: nat, captionFont: string, font: string): (id: Identity)
    requires |captionFont| < 96 && |font| < 96
    ensures Fits(id)
  {
    if c.NoText? then Identity("", "", captionFont, font)
    else
      var caption := if c.caption != "" then c.caption else Clip(Digits(i + 1), 32);
      var text := if c.comment != "" then c.text + "  " + c.comment else c.text;
      Identity(Clip(caption, 64), Clip(text, 512), captionFont, font)
  }

  // ---------------------------------------------------------------- numerals

  predicate IsDigit(c: char) {
    '0' <= c <= '9'
  }

  /** The number that a string of digits denotes. */
  function Value(s: string): nat
    requires forall i :: 0 <= i < |s| ==> IsDigit(s[i])
  {
    if s == [] then 0
    else
      var last := s[|s| - 1];
      assert IsDigit(last);
      Value(s[..|s| - 1]) * 10 + (last - '0') as nat
  }

  /** `s` is the decimal numeral of `n`: digits only, no leading zero. */
  predicate Numeral(s: string, n: nat) {
    && s != [] && (forall i :: 0 <= i < |s| ==> IsDigit(s[i]))
    && (s[0] == '0' ==> |s| == 1) && Value(s) == n
  }

  lemma DigitOf(d: nat)
    requires d < 10
    ensures var c := d as char + '0'; IsDigit(c) && (c - '0') as nat == d && (c == '0' <==> d == 0)
  {
  }

  lemma NumeralSnoc(s: string, n: nat, d: nat)
    requires Numeral(s, n) && s[0] != '0' && d < 10
    ensures Numeral(s + [d as char + '0'], n * 10 + d)
  {
    DigitOf(d);
    var t := s + [d as char + '0'];
    assert t[..|t| - 1] == s;
  }

  lemma OneDigit(d: nat)
    requires d < 10
    ensures Numeral([d as char + '0'], d)
  {
    DigitOf(d);
    var t := [d as char + '0'];
    assert t[..0] == [] && Value(t[..0]) == 0;
  }

  lemma {:induction false} DigitsAreNumeral(n: nat)
    ensures Numeral(Digits(n), n)
    ensures n > 0 ==> Digits(n)[0] != '0'
  {
    if n < 10 {
      OneDigit(n);
      DigitOf(n);
      assert Digits(n) == [n as char + '0'];
    } else {
      DigitsAreNumeral(n / 10);
      NumeralSnoc(Digits(n / 10), n / 10, n % 10);
      assert Digits(n) == Digits(n / 10) + [(n % 10) as char + '0'];
    }
  }

  function Pow10(k: nat): nat {
    if k == 0 then 1 else 10 * Pow10(k - 1)
  }

  lemma {:induction false} DigitsShort(n: nat, k: nat)
    requires n < Pow10(k) && k > 0
    ensures |Digits(n)| <= k
  {
    if n >= 10 {
      DigitsShort(n / 10, k - 1);
    }
  }

  // ---------------------------------------------------------------- which string is which

  /** What a buffer for `n` characters keeps of a string. */
  function First(s: string, n: nat): string {
    if |s| <= n then s else s[..n]
  }

  /** The label of row `i` is the candidate's caption, or its number; the text has any comment behind it. */
  predicate Tells(id: Identity, c: Candidate, i: nat) {
    match c
    case NoText => id.caption == "" && id.text == ""
    case Candidate(text, caption, comment) =>
      && (if caption != "" then id.caption == First(caption, 63) else Numeral(id.caption, i + 1))
      && id.text == First(if comment != "" then text + "  " + comment else text, 511)
  }

  lemma IdentityTells(c: Candidate, i: nat, captionFont: string, font: string)
    requires |captionFont| < 96 && |font| < 96 && i + 1 < Pow10(31)
    ensures var id := RowIdentity(c, i, captionFont, font);
      Tells(id, c, i) && id.captionFont == captionFont && id.font == font
  {
    DigitsAreNumeral(i + 1);
    DigitsShort(i + 1, 31);
  }
}
