/**
 * UUID text as Pydantic validates a `UUID` field or parameter: the four spellings its parser
 * accepts (32 hex digits; the 8-4-4-4-12 form bare, in braces, or after `urn:uuid:`), and
 * `str(UUID)`, the lower-case 8-4-4-4-12 form every accepted spelling is read as.
 */
module Uuid {
  import opened Text

  predicate IsHex(c: char) {
    '0' <= c <= '9' || 'a' <= c <= 'f' || 'A' <= c <= 'F'
  }

  predicate AllHex(s: string) {
    forall i :: 0 <= i < |s| ==> IsHex(s[i])
  }

  /** The positions of the four hyphens in the 8-4-4-4-12 form. */
  predicate HyphenAt(i: int) {
    i == 8 || i == 13 || i == 18 || i == 23
  }

  /** The 8-4-4-4-12 form, in either case. */
  predicate Hyphenated(s: string) {
    |s| == 36 && forall i :: 0 <= i < 36 ==> if HyphenAt(i) then s[i] == '-' else IsHex(s[i])
  }

  /** The text a `UUID` field accepts; anything else is refused with 422. */
  predicate IsUuidText(s: string) {
    (|s| == 32 && AllHex(s)) || Hyphenated(s) ||
    (|s| == 38 && s[0] == '{' && s[37] == '}' && Hyphenated(s[1..37])) ||
    (|s| == 45 && s[..9] == "urn:uuid:" && Hyphenated(s[9..]))
  }

  /** The 32 hex digits of the 8-4-4-4-12 form, hyphens dropped. */
  function Unhyphenate(h: string): (d: string)
    requires Hyphenated(h)
    ensures |d| == 32 && AllHex(d)
  {
    h[..8] + h[9..13] + h[14..18] + h[19..23] + h[24..]
  }

  /** The 32 hex digits an accepted spelling stands for. */
  function Digits(s: string): (d: string)
    requires IsUuidText(s)
    ensures |d| == 32 && AllHex(d)
  {
    if |s| == 32 then s
    else if |s| == 36 then Unhyphenate(s)
    else if |s| == 38 then Unhyphenate(s[1..37])
    else Unhyphenate(s[9..])
  }

  /** 32 hex digits written 8-4-4-4-12. */
  function Hyphenate(d: string): (h: string)
    requires |d| == 32 && AllHex(d)
    ensures Hyphenated(h) && Unhyphenate(h) == d
  {
    var h := d[..8] + "-" + d[8..12] + "-" + d[12..16] + "-" + d[16..20] + "-" + d[20..];
    assert forall i :: 0 <= i < 36 ==> h[i] == (if HyphenAt(i) then '-' else d[i - Dashes(i)]);
    assert Unhyphenate(h) == d by {
      assert h[..8] == d[..8] && h[9..13] == d[8..12] && h[14..18] == d[12..16];
      assert h[19..23] == d[16..20] && h[24..] == d[20..];
      assert d == d[..8] + d[8..12] + d[12..16] + d[16..20] + d[20..];
    }
    h
  }

  /** The number of hyphens before position `i` of the 8-4-4-4-12 form. */
  function Dashes(i: int): int {
    if i < 8 then 0 else if i < 13 then 1 else if i < 18 then 2 else if i < 23 then 3 else 4
  }

  /** Digits, `a`..`f` and hyphens only: no upper-case hex. */
  predicate LowerHex(s: string) {
    forall i :: 0 <= i < |s| ==> '0' <= s[i] <= '9' || 'a' <= s[i] <= 'f' || s[i] == '-'
  }

  /** `str(UUID(s))`: the lower-case 8-4-4-4-12 form of the digits `s` spells. */
  function Canonical(s: string): (c: string)
    requires IsUuidText(s)
    ensures Hyphenated(c) && LowerHex(c)
  {
    var d := LowerAscii(Digits(s));
    assert AllHex(d) && forall i :: 0 <= i < 32 ==> '0' <= d[i] <= '9' || 'a' <= d[i] <= 'f' by {
      forall i | 0 <= i < 32 ensures IsHex(d[i]) && ('0' <= d[i] <= '9' || 'a' <= d[i] <= 'f') {
        assert IsHex(Digits(s)[i]);
      }
    }
    var c := Hyphenate(d);
    forall i | 0 <= i < 36 ensures '0' <= c[i] <= '9' || 'a' <= c[i] <= 'f' || c[i] == '-' {
      if !HyphenAt(i) {
        assert c[i] == d[i - Dashes(i)];
      }
    }
    c
  }

  /** The canonical form is itself accepted, and reading it again changes nothing. */
  lemma CanonicalIsFixedPoint(s: string)
    requires IsUuidText(s)
    ensures IsUuidText(Canonical(s)) && Canonical(Canonical(s)) == Canonical(s)
  {
    var c := Canonical(s);
    var d := LowerAscii(Digits(s));
    assert Digits(c) == d;
    assert LowerAscii(d) == d by {
      forall i | 0 <= i < |d| ensures LowerAscii(d)[i] == d[i] {
        assert !('A' <= d[i] <= 'Z') by {
          var h := Hyphenate(d);
          assert c == h;
        }
      }
    }
  }

  /**
   * The four spellings of one UUID are all accepted and read as the same value: the plain
   * 8-4-4-4-12 form, its 32 digits, the braced form and the URN.
   */
  lemma SpellingsAgree(h: string)
    requires Hyphenated(h)
    ensures var digits, braced, urn := Unhyphenate(h), "{" + h + "}", "urn:uuid:" + h;
      IsUuidText(h) && IsUuidText(digits) && IsUuidText(braced) && IsUuidText(urn) &&
      Canonical(digits) == Canonical(h) && Canonical(braced) == Canonical(h) && Canonical(urn) == Canonical(h)
  {
    var braced, urn := "{" + h + "}", "urn:uuid:" + h;
    assert braced[1..37] == h;
    assert urn[..9] == "urn:uuid:" && urn[9..] == h;
  }
}
