/**
 * `windowsComparator`, the order `create` sorts the pages of an episode in: file names
 * compared without their extension, with a special case for a name that extends another.
 */
module Comparators {

  import opened Text

  /** `name.substringBeforeLast(".")`: the name without its extension. */
  function Stem(name: string): string {
    SubstringBeforeLast(name, '.')
  }

  /** The stem of `b` is the stem of `a` followed by more characters. */
  predicate Extends(b: string, a: string) {
    |Stem(b)| > |Stem(a)| && StartsWith(Stem(b), Stem(a))
  }

  /** `windowsComparator.compare(a, b)` on the names of two files, as written. */
  function WindowsCompare(a: string, b: string): (r: int)
    ensures r == 0 <==> Stem(a) == Stem(b)
  {
    var aName, bName := Stem(a), Stem(b);
    CompareToZero(aName, bName);
    if |bName| > |aName| && StartsWith(bName, aName) then 1 else CompareTo(aName, bName)
  }

  /**
   * The comparator as written puts a name after every name whose stem extends its own,
   * and otherwise orders names as the natural order orders their stems.
   */
  lemma WindowsCompareSpec(a: string, b: string)
    ensures Extends(b, a) ==> WindowsCompare(a, b) > 0
    ensures !Extends(b, a) ==> (WindowsCompare(a, b) < 0 <==> CompareTo(Stem(a), Stem(b)) < 0)
    ensures WindowsCompare(a, b) == 0 <==> Stem(a) == Stem(b)
  {
    CompareToZero(Stem(a), Stem(b));
  }

  /**
   * The comparator as written is not a comparator: `001.jpg` and `001-1.jpg` each compare
   * above the other, so the sort is free to put them in either order.
   */
  lemma WindowsCompareNotAntisymmetric()
    ensures WindowsCompare("001.jpg", "001-1.jpg") > 0
    ensures WindowsCompare("001-1.jpg", "001.jpg") > 0
  {
    assert Stem("001.jpg") == "001";
    assert Stem("001-1.jpg") == "001-1";
    assert CompareTo("001-1", "001") == 2;
  }

  /** The comparator as intended: a name sorts before every name whose stem extends its own. */
  function WindowsCompareIntended(a: string, b: string): (r: int)
    ensures r < 0 <==> CompareTo(Stem(a), Stem(b)) < 0
  {
    var aName, bName := Stem(a), Stem(b);
    if |bName| > |aName| && StartsWith(bName, aName) then CompareToProperPrefix(aName, bName); -1
    else CompareTo(aName, bName)
  }

  /** The intended comparator differs from the written one exactly in the special case. */
  lemma WindowsCompareDiffers(a: string, b: string)
    ensures WindowsCompareIntended(a, b) != WindowsCompare(a, b) <==> Extends(b, a)
    ensures Extends(b, a) ==> WindowsCompareIntended(a, b) < 0 < WindowsCompare(a, b)
  {
  }

  /** The intended comparator has the sign of the natural order of the stems. */
  lemma WindowsCompareIntendedSign(a: string, b: string)
    ensures WindowsCompareIntended(a, b) < 0 <==> CompareTo(Stem(a), Stem(b)) < 0
    ensures WindowsCompareIntended(a, b) > 0 <==> CompareTo(Stem(a), Stem(b)) > 0
    ensures WindowsCompareIntended(a, b) == 0 <==> Stem(a) == Stem(b)
  {
    CompareToZero(Stem(a), Stem(b));
    if Extends(b, a) {
      CompareToProperPrefix(Stem(a), Stem(b));
    }
  }

  /**
   * The intended comparator is a comparator: swapping the names flips the sign, and
   * `a` below `b` below `c` puts `a` below `c`.
   */
  lemma WindowsCompareIntendedIsOrder(a: string, b: string, c: string)
    ensures WindowsCompareIntended(a, b) < 0 <==> WindowsCompareIntended(b, a) > 0
    ensures WindowsCompareIntended(a, b) < 0 && WindowsCompareIntended(b, c) < 0 ==> WindowsCompareIntended(a, c) < 0
  {
    WindowsCompareIntendedSign(a, b);
    WindowsCompareIntendedSign(b, a);
    WindowsCompareIntendedSign(b, c);
    WindowsCompareIntendedSign(a, c);
    CompareToAntisymmetric(Stem(a), Stem(b));
    if CompareTo(Stem(a), Stem(b)) < 0 && CompareTo(Stem(b), Stem(c)) < 0 {
      CompareToTransitive(Stem(a), Stem(b), Stem(c));
    }
  }

  /** With the intended comparator `001.jpg` sorts before `001-1.jpg`, from either side. */
  lemma WindowsCompareIntendedExample()
    ensures WindowsCompareIntended("001.jpg", "001-1.jpg") < 0
    ensures WindowsCompareIntended("001-1.jpg", "001.jpg") > 0
  {
    assert Stem("001.jpg") == "001";
    assert Stem("001-1.jpg") == "001-1";
    assert CompareTo("001-1", "001") == 2;
  }
}
