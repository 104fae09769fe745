/**
  The textual UUID form of section 3 of RFC 4122: 32 hexadecimal digits in
  groups of 8-4-4-4-12 separated by hyphens, either case. This is the shape
  the `uuid` package's `validate` recognises; its additional checks on the
  version and variant digits are not part of this predicate.
 */
module Uuid {

  predicate IsHexDigit(c: char) {
    '0' <= c <= '9' || 'a' <= c <= 'f' || 'A' <= c <= 'F'
  }

  /** Positions of the four hyphens in the 36-character form. */
  predicate IsHyphenPosition(i: int) {
    i == 8 || i == 13 || i == 18 || i == 23
  }

  predicate IsUUID(s: string) {
    && |s| == 36
    && forall i :: 0 <= i < |s| ==> if IsHyphenPosition(i) then s[i] == '-' else IsHexDigit(s[i])
  }

  predicate AllHex(s: string) {
    forall i :: 0 <= i < |s| ==> IsHexDigit(s[i])
  }

  /** Five hexadecimal groups of 8, 4, 4, 4 and 12 digits joined by hyphens form a UUID. */
  lemma GroupsFormUUID(a: string, b: string, c: string, d: string, e: string)
    requires |a| == 8 && |b| == 4 && |c| == 4 && |d| == 4 && |e| == 12
    requires AllHex(a) && AllHex(b) && AllHex(c) && AllHex(d) && AllHex(e)
    ensures IsUUID(a + "-" + b + "-" + c + "-" + d + "-" + e)
  {
    var s := a + "-" + b + "-" + c + "-" + d + "-" + e;
    forall i | 0 <= i < |s|
      ensures if IsHyphenPosition(i) then s[i] == '-' else IsHexDigit(s[i])
    {
      if i < 8 { assert s[i] == a[i]; }
      else if 9 <= i < 13 { assert s[i] == b[i - 9]; }
      else if 14 <= i < 18 { assert s[i] == c[i - 14]; }
      else if 19 <= i < 23 { assert s[i] == d[i - 19]; }
      else if 24 <= i { assert s[i] == e[i - 24]; }
    }
  }

  /** Conversely, every UUID is five hexadecimal groups of 8, 4, 4, 4 and 12 digits joined by hyphens. */
  lemma UUIDGroups(s: string)
    requires IsUUID(s)
    ensures s == s[..8] + "-" + s[9..13] + "-" + s[14..18] + "-" + s[19..23] + "-" + s[24..]
    ensures AllHex(s[..8]) && AllHex(s[9..13]) && AllHex(s[14..18]) && AllHex(s[19..23]) && AllHex(s[24..])
  {
    assert IsHyphenPosition(8) && IsHyphenPosition(13) && IsHyphenPosition(18) && IsHyphenPosition(23);
    var joined := s[..8] + "-" + s[9..13] + "-" + s[14..18] + "-" + s[19..23] + "-" + s[24..];
    forall i | 0 <= i < 36
      ensures joined[i] == s[i]
    {
      if IsHyphenPosition(i) { assert s[i] == '-'; }
    }
    forall i | 0 <= i < 8 ensures IsHexDigit(s[..8][i]) { assert !IsHyphenPosition(i); }
    forall i | 0 <= i < 4 ensures IsHexDigit(s[9..13][i]) { assert !IsHyphenPosition(i + 9); }
    forall i | 0 <= i < 4 ensures IsHexDigit(s[14..18][i]) { assert !IsHyphenPosition(i + 14); }
    forall i | 0 <= i < 4 ensures IsHexDigit(s[19..23][i]) { assert !IsHyphenPosition(i + 19); }
    forall i | 0 <= i < 12 ensures IsHexDigit(s[24..][i]) { assert !IsHyphenPosition(i + 24); }
  }
}
