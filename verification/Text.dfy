/** The string operations the services apply to their inputs, on ASCII text. */
module Text {
  import opened Common

  predicate IsSpace(c: char) {
    c in {' ', '\t', '\n', '\r', 11 as char, 12 as char}
  }

  function TrimLeft(s: string): (r: string)
    ensures r == [] || !IsSpace(r[0])
    ensures s != [] && !IsSpace(s[0]) ==> r == s
    ensures r != [] ==> s != [] && r[|r| - 1] == s[|s| - 1]
  {
    if s == [] || !IsSpace(s[0]) then s else TrimLeft(s[1..])
  }

  function TrimRight(s: string): (r: string)
    ensures r == [] || !IsSpace(r[|r| - 1])
    ensures s != [] && !IsSpace(s[|s| - 1]) ==> r == s
    ensures r != [] ==> s != [] && r[0] == s[0]
  {
    if s == [] || !IsSpace(s[|s| - 1]) then s else TrimRight(s[..|s| - 1])
  }

  function TrimSpace(s: string): (r: string)
    ensures r == [] || (!IsSpace(r[0]) && !IsSpace(r[|r| - 1]))
    ensures s != [] && !IsSpace(s[0]) && !IsSpace(s[|s| - 1]) ==> r == s
  {
    TrimRight(TrimLeft(s))
  }

  /** Trimming takes white space, and nothing else, off both ends. */
  lemma TrimTakesOnlySpace(s: string) returns (i: nat, j: nat)
    ensures i <= j <= |s| && TrimSpace(s) == s[i..j]
    ensures forall k :: 0 <= k < i || j <= k < |s| ==> s[k] in {' ', '\t', '\n', '\r', 11 as char, 12 as char}
  {
    i := LeftTaken(s);
    var k := RightTaken(s[i..]);
    j := i + k;
    assert forall m :: j <= m < |s| ==> s[m] == s[i..][m - i];
  }

  lemma {:induction false} LeftTaken(s: string) returns (i: nat)
    ensures i <= |s| && TrimLeft(s) == s[i..] && forall k :: 0 <= k < i ==> IsSpace(s[k])
  {
    i := 0;
    if s != [] && IsSpace(s[0]) {
      var rest := LeftTaken(s[1..]);
      i := rest + 1;
      assert forall k :: 1 <= k < i ==> s[k] == s[1..][k - 1];
    }
  }

  lemma {:induction false} RightTaken(s: string) returns (j: nat)
    ensures j <= |s| && TrimRight(s) == s[..j] && forall k :: j <= k < |s| ==> IsSpace(s[k])
  {
    j := |s|;
    if s != [] && IsSpace(s[|s| - 1]) {
      j := RightTaken(s[..|s| - 1]);
      assert forall k :: j <= k < |s| - 1 ==> s[k] == s[..|s| - 1][k];
    }
  }

  /** It takes all of it: what remains neither begins nor ends with white space. */
  lemma TrimTakesAllSpace(s: string)
    ensures var t, white := TrimSpace(s), {' ', '\t', '\n', '\r', 11 as char, 12 as char};
      t == [] || (t[0] !in white && t[|t| - 1] !in white)
  {
  }

  lemma TrimIsIdempotent(s: string)
    ensures TrimSpace(TrimSpace(s)) == TrimSpace(s)
  {
  }

  function LowerChar(c: char): char {
    if 'A' <= c <= 'Z' then c - 'A' + 'a' else c
  }

  function ToLower(s: string): string {
    seq(|s|, i requires 0 <= i < |s| => LowerChar(s[i]))
  }

  const CAPITALS := "ABCDEFGHIJKLMNOPQRSTUVWXYZ"
  const SMALL_LETTERS := "abcdefghijklmnopqrstuvwxyz"

  lemma LowerLetters(c: char, k: nat)
    requires k < 26
    ensures LowerChar(CAPITALS[k]) == SMALL_LETTERS[k]
    ensures c !in CAPITALS ==> LowerChar(c) == c
  {
    if 'A' <= c <= 'Z' {
      assert CAPITALS[(c - 'A') as int] == c;
    }
  }

  /** Each capital becomes its own small letter; every other character stays. */
  lemma LowerCasing(s: string, i: nat, k: nat)
    requires i < |s| && k < 26
    ensures |ToLower(s)| == |s|
    ensures s[i] == CAPITALS[k] ==> ToLower(s)[i] == SMALL_LETTERS[k]
    ensures s[i] !in CAPITALS ==> ToLower(s)[i] == s[i]
  {
    LowerLetters(s[i], k);
  }

  predicate IsHexDigit(c: char) {
    '0' <= c <= '9' || 'a' <= c <= 'f' || 'A' <= c <= 'F'
  }

  /** ObjectIDFromHex followed by Hex: 24 hexadecimal digits of either case, printed in lower case. */
  function ParseObjectID(s: string): Option<string> {
    if |s| == 24 && (forall i :: 0 <= i < |s| ==> IsHexDigit(s[i])) then Some(ToLower(s)) else None
  }

  /** Exactly the strings of 24 hexadecimal digits, of either case, are object IDs. */
  lemma ParsesIff(s: string)
    ensures ParseObjectID(s).Some? <==> |s| == 24 && forall c :: c in s ==> c in "0123456789abcdefABCDEF"
    ensures ParseObjectID(s).Some? ==> ParseObjectID(s).value == ToLower(s)
  {
    forall c ensures IsHexDigit(c) <==> c in "0123456789abcdefABCDEF" {
      HexDigits(c);
    }
  }

  lemma HexDigits(c: char)
    ensures IsHexDigit(c) <==> c in "0123456789abcdefABCDEF"
  {
    var digits := "0123456789abcdefABCDEF";
    if '0' <= c <= '9' {
      assert digits[(c - '0') as int] == c;
    } else if 'a' <= c <= 'f' {
      assert digits[10 + (c - 'a') as int] == c;
    } else if 'A' <= c <= 'F' {
      assert digits[16 + (c - 'A') as int] == c;
    }
  }

  lemma ParsedIdsAreCanonical(s: string)
    requires ParseObjectID(s).Some?
    ensures ParseObjectID(ParseObjectID(s).value) == ParseObjectID(s)
  {
    var h := ToLower(s);
    assert forall i :: 0 <= i < |h| ==> h[i] == LowerChar(s[i]) && LowerChar(h[i]) == h[i] && IsHexDigit(h[i]);
    assert ToLower(h) == h;
  }
}
