/**
 * Case folding and substring containment as the catalog's filters use them:
 * lower-casing is ASCII folding of 'A'..'Z', and containment is the string
 * `in` operator (some contiguous slice of the haystack equals the needle).
 */
module Text {

  /** Folds 'A'..'Z' onto 'a'..'z' and leaves every other character alone. */
  function Fold(c: char): char {
    if 'A' <= c <= 'Z' then (c as int - 'A' as int + 'a' as int) as char else c
  }

  /**
   * The string lower-cased character by character: an ASCII capital becomes
   * the letter 32 code points later, and every other character is kept.
   */
  function Lower(s: string): (r: string)
    ensures |r| == |s|
    ensures forall i :: 0 <= i < |s| ==>
      (if 'A' <= s[i] <= 'Z' then r[i] as int == s[i] as int + 32 else r[i] == s[i])
  {
    seq(|s|, i requires 0 <= i < |s| => Fold(s[i]))
  }

  /** `needle in hay`: needle is a prefix of hay or of one of its suffixes. */
  predicate Contains(hay: string, needle: string)
    ensures Contains(hay, needle) ==> |needle| <= |hay|
    decreases |hay|
  {
    needle <= hay || (hay != [] && Contains(hay[1..], needle))
  }

  /** A folded string has no upper-case ASCII letter, and folding it again changes nothing. */
  lemma LowerIsIdempotent(s: string)
    ensures forall i :: 0 <= i < |s| ==> !('A' <= Lower(s)[i] <= 'Z')
    ensures Lower(Lower(s)) == Lower(s)
  {
    assert forall i :: 0 <= i < |s| ==> Fold(Fold(s[i])) == Fold(s[i]);
  }

  /** Containment means that the needle starts at some position of the haystack. */
  lemma {:induction false} ContainsAtSomePosition(hay: string, needle: string)
    ensures Contains(hay, needle) <==> exists i :: 0 <= i <= |hay| && needle <= hay[i..]
    decreases |hay|
  {
    if needle <= hay {
      assert needle <= hay[0..];
    } else if hay == [] {
      forall i | 0 <= i <= |hay| ensures !(needle <= hay[i..]) {
        assert hay[i..] == hay;
      }
    } else {
      ContainsAtSomePosition(hay[1..], needle);
      if Contains(hay[1..], needle) {
        var i :| 0 <= i <= |hay[1..]| && needle <= hay[1..][i..];
        assert hay[1..][i..] == hay[i + 1..];
      } else {
        forall i | 0 <= i <= |hay| ensures !(needle <= hay[i..]) {
          if i > 0 {
            assert hay[1..][i - 1..] == hay[i..];
          } else {
            assert hay[i..] == hay;
          }
        }
      }
    }
  }

  /** Every string contains itself and the empty string, and a needle longer than the haystack is never in it. */
  lemma ContainsBasics(hay: string, needle: string)
    ensures Contains(hay, hay) && Contains(hay, [])
    ensures |needle| > |hay| ==> !Contains(hay, needle)
  {
    assert [] <= hay;
  }
}
