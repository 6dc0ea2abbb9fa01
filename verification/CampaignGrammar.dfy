/** The identifiers and digests of a campaign, told from their alphabets. */
module CampaignGrammar {
  import opened Campaign

  const HEXADECIMAL := "0123456789abcdef"
  const DIGITS := "0123456789"
  const SMALL := "abcdefghijklmnopqrstuvwxyz"
  const CAPITALS := "ABCDEFGHIJKLMNOPQRSTUVWXYZ"

  lemma SmallIff(c: char)
    ensures 'a' <= c <= 'z' <==> c in SMALL
  {
  }

  lemma CapitalIff(c: char)
    ensures 'A' <= c <= 'Z' <==> c in CAPITALS
  {
  }

  lemma AlphanumericIff(c: char)
    ensures Alphanumeric(c) <==> c in DIGITS || c in SMALL || c in CAPITALS
  {
    SmallIff(c);
    CapitalIff(c);
  }

  lemma LowerHexIff(c: char)
    ensures LowerHex(c) <==> c in HEXADECIMAL
  {
  }

  predicate LetterOrDigit(c: char) {
    c in DIGITS || c in SMALL || c in CAPITALS
  }

  predicate Follows(c: char) {
    LetterOrDigit(c) || c in "._:-"
  }

  lemma FollowsIff(c: char)
    ensures Follows(c) <==> Alphanumeric(c) || c in "._:-"
  {
    AlphanumericIff(c);
  }

  /** One letter or digit, and at most 159 letters, digits, dots, underscores, colons and hyphens behind it. */
  lemma SafeIdIff(s: string)
    ensures SafeId(s) <==>
            && 0 < |s| <= 160 && LetterOrDigit(s[0]) && forall i :: 1 <= i < |s| ==> Follows(s[i])
  {
    if s != [] {
      AlphanumericIff(s[0]);
      forall i | 1 <= i < |s| ensures Follows(s[i]) <==> Alphanumeric(s[i]) || s[i] in "._:-" {
        FollowsIff(s[i]);
      }
    }
  }

  predicate Hexadecimal(s: string) {
    forall i :: 0 <= i < |s| ==> s[i] in HEXADECIMAL
  }

  /** Forty hexadecimal digits in lower case, and sixty-four. */
  lemma DigestsIff(s: string)
    ensures CandidateSha(s) <==> |s| == 40 && Hexadecimal(s)
    ensures Sha256Text(s) <==> |s| == 64 && Hexadecimal(s)
  {
    forall i | 0 <= i < |s| ensures LowerHex(s[i]) <==> s[i] in HEXADECIMAL {
      LowerHexIff(s[i]);
    }
  }
}
