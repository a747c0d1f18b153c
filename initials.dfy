/**
 * Avatar initials: the first character of each space-separated word, upper
 * cased, at most two. The lease-expiry widget and the tenant card carry the
 * same text of this function.
 */
module Initials {
  import opened Text

  function Initials(name: string): (r: string)
    ensures |r| <= 2
    ensures forall i :: 0 <= i < |r| ==> !IsLowerAscii(r[i])
  {
    Take(Upper(FirstChars(Split(name, ' '))), 2)
  }

  /** Two words give the upper-cased first letter of each, in order. */
  lemma InitialsOfTwoWords(first: string, last: string)
    requires |first| > 0 && |last| > 0
    requires ' ' !in first && ' ' !in last
    ensures Initials(first + " " + last) == [UpperChar(first[0]), UpperChar(last[0])]
  {
    SplitAfterPrefix(first, last, ' ');
    SplitNoSeparator(last, ' ');
    assert first + " " + last == first + [' '] + last;
    assert Split(first + " " + last, ' ') == [first, last];
    assert FirstChars([first, last]) == [first[0], last[0]] by {
      assert [first, last][1..] == [last];
    }
  }

  /** Further words do not count once there are two initials. */
  lemma InitialsOfThreeWords(first: string, middle: string, last: string)
    requires |first| > 0 && |middle| > 0 && |last| > 0
    requires ' ' !in first && ' ' !in middle && ' ' !in last
    ensures Initials(first + " " + middle + " " + last) == [UpperChar(first[0]), UpperChar(middle[0])]
  {
    var s := first + " " + middle + " " + last;
    assert s == first + [' '] + (middle + [' '] + last);
    SplitAfterPrefix(first, middle + [' '] + last, ' ');
    SplitAfterPrefix(middle, last, ' ');
    SplitNoSeparator(last, ' ');
    assert Split(s, ' ') == [first, middle, last];
    assert FirstChars([first, middle, last]) == [first[0], middle[0], last[0]] by {
      assert [first, middle, last][1..] == [middle, last];
      assert [middle, last][1..] == [last];
      assert FirstChars([last]) == [last[0]];
      assert FirstChars([middle, last]) == [middle[0], last[0]];
    }
  }

  /** A double space makes an empty word, which adds no initial. */
  lemma InitialsSkipEmptyWords(first: string, last: string)
    requires |first| > 0 && |last| > 0
    requires ' ' !in first && ' ' !in last
    ensures Initials(first + "  " + last) == [UpperChar(first[0]), UpperChar(last[0])]
  {
    var s := first + "  " + last;
    assert s == first + [' '] + ([] + [' '] + last);
    SplitAfterPrefix(first, [] + [' '] + last, ' ');
    SplitAfterPrefix([], last, ' ');
    SplitNoSeparator(last, ' ');
    assert Split(s, ' ') == [first, [], last];
    assert FirstChars([first, [], last]) == [first[0], last[0]] by {
      assert [first, [], last][1..] == [[], last];
      assert [[], last][1..] == [last];
      assert FirstChars([last]) == [last[0]];
      assert FirstChars([[], last]) == [last[0]];
    }
  }
}
