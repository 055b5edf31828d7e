/** Case-insensitive text comparison. Foundation's `lowercased()` and
    `localizedCaseInsensitiveContains` are locale-aware; this model folds the
    ASCII letters A-Z onto a-z and leaves every other character as it is. */
module Text {

  predicate IsUpper(c: char) {
    'A' <= c <= 'Z'
  }

  /** ASCII lower-casing of one character. */
  function LowerChar(c: char): (r: char)
    ensures !IsUpper(r)
    ensures IsUpper(c) || r == c
    ensures IsUpper(c) ==> r as int - c as int == 32
  {
    if IsUpper(c) then (c as int + 32) as char else c
  }

  /** `lowercased()` under the ASCII assumption. */
  function Lower(s: string): (r: string)
    ensures |r| == |s|
    ensures forall i :: 0 <= i < |s| ==> r[i] == LowerChar(s[i])
  {
    seq(|s|, i requires 0 <= i < |s| => LowerChar(s[i]))
  }

  lemma {:induction false} LowerIdempotent(s: string)
    ensures Lower(Lower(s)) == Lower(s)
  {
    var l := Lower(s);
    assert forall i :: 0 <= i < |l| ==> LowerChar(l[i]) == l[i];
  }

  /** `needle` occurs as a contiguous block of `hay`. */
  predicate HasInfix(hay: string, needle: string)
    decreases |hay|
  {
    if |needle| > |hay| then false
    else hay[..|needle|] == needle || HasInfix(hay[1..], needle)
  }

  /** `needle` occurs in `hay` starting at position `i`. */
  predicate InfixAt(hay: string, needle: string, i: int) {
    0 <= i <= |hay| - |needle| && hay[i..i + |needle|] == needle
  }

  /** A match past the first position is a match in the rest of the text. */
  lemma InfixShift(hay: string, needle: string, i: int)
    requires 1 <= i && |hay| > 0
    ensures InfixAt(hay, needle, i) <==> InfixAt(hay[1..], needle, i - 1)
  {
    if i <= |hay| - |needle| {
      assert hay[i..i + |needle|] == hay[1..][i - 1..i - 1 + |needle|];
    }
  }

  /** The recursive test agrees with the positional definition of an infix. */
  lemma {:induction false} HasInfixIff(hay: string, needle: string)
    ensures HasInfix(hay, needle) <==> exists i :: InfixAt(hay, needle, i)
    decreases |hay|
  {
    if |needle| <= |hay| {
      if hay[..|needle|] == needle {
        assert InfixAt(hay, needle, 0);
      } else {
        HasInfixIff(hay[1..], needle);
        if HasInfix(hay[1..], needle) {
          var i :| InfixAt(hay[1..], needle, i);
          InfixShift(hay, needle, i + 1);
        } else {
          forall i | InfixAt(hay, needle, i)
            ensures false
          {
            assert i != 0;
            InfixShift(hay, needle, i);
          }
        }
      }
    } else {
      forall i | InfixAt(hay, needle, i)
        ensures false
      {
      }
    }
  }

  /** `localizedCaseInsensitiveContains`: the folded `needle` occurs in the
      folded `hay`. Like Foundation, an empty needle is never contained. */
  predicate ContainsIgnoringCase(hay: string, needle: string): (c: bool)
    ensures c ==> 0 < |needle| <= |hay|
  {
    HasInfixIff(Lower(hay), Lower(needle));
    |needle| > 0 && HasInfix(Lower(hay), Lower(needle))
  }

  /** Case-insensitive containment is exactly a case-folded positional match. */
  lemma ContainsIgnoringCaseIff(hay: string, needle: string)
    ensures ContainsIgnoringCase(hay, needle) <==>
            |needle| > 0 && exists i :: InfixAt(Lower(hay), Lower(needle), i)
  {
    var h, n := Lower(hay), Lower(needle);
    HasInfixIff(h, n);
  }

  /** Only the folded needle matters: a query and its lower-cased form are
      contained in exactly the same texts. */
  lemma {:induction false} ContainsIgnoringCaseFolds(hay: string, needle: string)
    ensures ContainsIgnoringCase(hay, needle) == ContainsIgnoringCase(hay, Lower(needle))
  {
    LowerIdempotent(needle);
  }
}
