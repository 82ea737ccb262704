/** The Moroccan mobile-number grammar `/^(\+212|0)[567]\d{8}$/`, which the
    server and the browser both apply to the whitespace-stripped phone field. */
module PhoneGrammar {
  import opened JsText

  predicate IsMobilePrefixDigit(c: char) { c == '5' || c == '6' || c == '7' }

  predicate AllDigits(s: string) { forall i :: 0 <= i < |s| ==> IsDigit(s[i]) }

  /** The regular expression, read as its two alternatives. */
  predicate MatchesMobile(s: string) {
    || (|s| == 13 && s[..4] == "+212" && IsMobilePrefixDigit(s[4]) && AllDigits(s[5..]))
    || (|s| == 10 && s[0] == '0' && IsMobilePrefixDigit(s[1]) && AllDigits(s[2..]))
  }

  /** The grammar stated constructively: a number is a prefix (`+212` or `0`),
      one of 5/6/7 and eight digits. */
  function MobileNumber(international: bool, operator: char, subscriber: string): (s: string)
    requires IsMobilePrefixDigit(operator) && |subscriber| == 8 && AllDigits(subscriber)
    ensures MatchesMobile(s)
  {
    (if international then "+212" else "0") + [operator] + subscriber
  }

  /** Every matching string is built that way, so `MobileNumber` and
      `MatchesMobile` describe the same language. */
  lemma MatchesMobileDecomposes(s: string) returns (international: bool, operator: char, subscriber: string)
    requires MatchesMobile(s)
    ensures IsMobilePrefixDigit(operator) && |subscriber| == 8 && AllDigits(subscriber)
    ensures s == MobileNumber(international, operator, subscriber)
  {
    international := |s| == 13;
    var p := if international then 4 else 1;
    operator, subscriber := s[p], s[p + 1..];
    assert s == s[..p] + [s[p]] + s[p + 1..];
  }

  /** A matching string contains no whitespace, so stripping it is the identity. */
  lemma MobileHasNoWhitespace(s: string)
    requires MatchesMobile(s)
    ensures NoWhitespace(s)
  {
    forall i | 0 <= i < |s| ensures !IsWhitespace(s[i]) {
      if |s| == 13 && i < 4 {
        assert s[i] == "+212"[i];
      }
    }
  }
}
