/** The ASIN check of `DetailLoaderSpider._is_valid_asin`: a token is accepted
    when it is non-empty, not `isspace()`, and `re.match` finds the pattern
    `[0-9]{9}[0-9Xx]{1}|[A-Z]{1}[0-9A-Z]{9}` at its start. `re.match` anchors
    the pattern at the start only, so a token of more than ten characters
    passes when its first ten do. */
module AsinFormat {
  import opened PyText

  /** The character classes that occur in the pattern. */
  datatype CharClass = Digit | DigitOrX | Upper | DigitOrUpper

  predicate InClass(c: char, k: CharClass) {
    match k
    case Digit => '0' <= c <= '9'
    case DigitOrX => '0' <= c <= '9' || c == 'X' || c == 'x'
    case Upper => 'A' <= c <= 'Z'
    case DigitOrUpper => '0' <= c <= '9' || 'A' <= c <= 'Z'
  }

  /** `re.match` of a pattern made of single-character classes: the classes
      are matched one by one from the start of `s`; what follows is ignored. */
  predicate MatchesPrefix(p: seq<CharClass>, s: string)
    decreases p
  {
    p == [] || (|s| > 0 && InClass(s[0], p[0]) && MatchesPrefix(p[1..], s[1..]))
  }

  function Repeat(k: CharClass, n: nat): (p: seq<CharClass>)
    ensures |p| == n && forall i :: 0 <= i < n ==> p[i] == k
  {
    seq(n, _ => k)
  }

  /** First alternative, `[0-9]{9}[0-9Xx]{1}` (the ISBN-10 shape). */
  const IsbnStyle: seq<CharClass> := Repeat(Digit, 9) + [DigitOrX]

  /** Second alternative, `[A-Z]{1}[0-9A-Z]{9}`. */
  const LetterStyle: seq<CharClass> := [Upper] + Repeat(DigitOrUpper, 9)

  /** `re.match` of the alternation: either alternative matches at the start. */
  predicate MatchesAsinPattern(s: string) {
    MatchesPrefix(IsbnStyle, s) || MatchesPrefix(LetterStyle, s)
  }

  /** `DetailLoaderSpider._is_valid_asin`. */
  predicate IsValidAsin(asin: string) {
    |asin| > 0 && !IsSpaceString(asin) && MatchesAsinPattern(asin)
  }

  /** The pattern read character by character: nine digits then a digit, `X`
      or `x`. */
  ghost predicate IsbnShape(s: string)
    requires |s| >= 10
  {
    (forall i :: 0 <= i < 9 ==> '0' <= s[i] <= '9')
    && ('0' <= s[9] <= '9' || s[9] == 'X' || s[9] == 'x')
  }

  /** The pattern read character by character: an upper-case letter then
      nine digits or upper-case letters. */
  ghost predicate LetterShape(s: string)
    requires |s| >= 10
  {
    'A' <= s[0] <= 'Z'
    && forall i :: 1 <= i < 10 ==> '0' <= s[i] <= '9' || 'A' <= s[i] <= 'Z'
  }

  /** A class pattern matches at the start of `s` exactly when `s` is at least
      as long as the pattern and each of its first characters is in the
      class at the same position. */
  lemma {:induction false} MatchesPrefixIff(p: seq<CharClass>, s: string)
    ensures MatchesPrefix(p, s) <==> |p| <= |s| && forall i :: 0 <= i < |p| ==> InClass(s[i], p[i])
    decreases p
  {
    if p != [] && |s| > 0 {
      MatchesPrefixIff(p[1..], s[1..]);
      if |p| <= |s| && forall i :: 0 <= i < |p| ==> InClass(s[i], p[i]) {
        assert forall i :: 0 <= i < |p| - 1 ==> InClass(s[1..][i], p[1..][i]) by {
          forall i | 0 <= i < |p| - 1 ensures InClass(s[1..][i], p[1..][i]) {
            assert s[1..][i] == s[i + 1] && p[1..][i] == p[i + 1];
          }
        }
      }
      if MatchesPrefix(p, s) {
        forall i | 0 <= i < |p| ensures InClass(s[i], p[i]) {
          if i > 0 { assert s[1..][i - 1] == s[i] && p[1..][i - 1] == p[i]; }
        }
      }
    }
  }

  /** A token is valid exactly when it has at least ten characters and its
      first ten have one of the two shapes; nothing after the tenth matters. */
  lemma ValidAsinIff(s: string)
    ensures IsValidAsin(s) <==> |s| >= 10 && (IsbnShape(s) || LetterShape(s))
  {
    MatchesPrefixIff(IsbnStyle, s);
    MatchesPrefixIff(LetterStyle, s);
    if |s| >= 10 && (IsbnShape(s) || LetterShape(s)) {
      assert !IsSpace(s[0]);
      if IsbnShape(s) {
        assert forall i :: 0 <= i < 10 ==> InClass(s[i], IsbnStyle[i]);
      } else {
        assert forall i :: 0 <= i < 10 ==> InClass(s[i], LetterStyle[i]);
      }
    }
    if IsValidAsin(s) {
      if MatchesPrefix(IsbnStyle, s) {
        assert forall i :: 0 <= i < 10 ==> InClass(s[i], IsbnStyle[i]);
      } else {
        assert forall i :: 0 <= i < 10 ==> InClass(s[i], LetterStyle[i]);
      }
    }
  }

  /** The guards against the empty and the whitespace-only token are implied
      by the pattern: the first character it accepts is never whitespace. */
  lemma BlankGuardsImpliedByPattern(s: string)
    ensures IsValidAsin(s) <==> MatchesAsinPattern(s)
  {
  }

  /** An empty or whitespace-only token is never a valid ASIN. */
  lemma BlankIsInvalid(s: string)
    requires AllSpace(s)
    ensures !IsValidAsin(s)
  {
  }

  /** Only the first ten characters decide validity: a valid token stays
      valid with anything appended, and a token is valid exactly when its
      ten-character prefix is. */
  lemma OnlyFirstTenMatter(s: string, t: string)
    ensures IsValidAsin(s) ==> IsValidAsin(s + t)
    ensures |s| >= 10 ==> (IsValidAsin(s) <==> IsValidAsin(s[..10]))
  {
    ValidAsinIff(s);
    ValidAsinIff(s + t);
    if |s| >= 10 {
      ValidAsinIff(s[..10]);
      assert forall i :: 0 <= i < 10 ==> (s + t)[i] == s[i] && s[..10][i] == s[i];
    }
  }

  /** Examples of the two shapes: `B000123456` and `123456789X` are valid,
      and so is `123456789x`, since the check digit class admits a lower-case
      `x`. */
  lemma ValidExamples()
    ensures IsValidAsin("B000123456")
    ensures IsValidAsin("123456789X")
    ensures IsValidAsin("123456789x")
  {
    assert IsValidAsin("B000123456") by {
      assert LetterShape("B000123456");
      ValidAsinIff("B000123456");
    }
    var digits := "123456789";
    assert forall i :: 0 <= i < 9 ==> '0' <= digits[i] <= '9';
    assert IsValidAsin("123456789X") by {
      assert digits + "X" == "123456789X";
      assert IsbnShape(digits + "X");
      ValidAsinIff("123456789X");
    }
    assert IsValidAsin("123456789x") by {
      assert digits + "x" == "123456789x";
      assert IsbnShape(digits + "x");
      ValidAsinIff("123456789x");
    }
  }

  /** `bad` is too short, and `b000123456` starts with a lower-case letter. */
  lemma InvalidExamples()
    ensures !IsValidAsin("bad")
    ensures !IsValidAsin("b000123456")
  {
  }

  /** A longer token passes when its first ten characters do. */
  lemma LongerTokenExample()
    ensures IsValidAsin("B000123456-extra")
  {
    assert IsValidAsin("B000123456") by {
      assert LetterShape("B000123456");
      ValidAsinIff("B000123456");
    }
    assert IsValidAsin("B000123456" + "-extra") by { OnlyFirstTenMatter("B000123456", "-extra"); }
    assert "B000123456" + "-extra" == "B000123456-extra";
  }
}
