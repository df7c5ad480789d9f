/** The confirmation prompt of remove_folder (easypath/main.py:155-164):
    the answer is stripped of whitespace and lower-cased, and only "y"
    lets the removal go ahead. */
module Prompt {

  /** The characters Python's `str.strip()` removes (`str.isspace`). */
  predicate IsSpace(c: char) {
    c == ' ' || '\t' <= c <= '\r' || '\U{1C}' <= c <= '\U{1F}' || c == '\U{85}' || c == '\U{A0}' ||
    c == '\U{1680}' || '\U{2000}' <= c <= '\U{200A}' || c == '\U{2028}' || c == '\U{2029}' ||
    c == '\U{202F}' || c == '\U{205F}' || c == '\U{3000}'
  }

  /** `s` without its leading whitespace. */
  function StripStart(s: string): (r: string)
    ensures |r| <= |s| && r == s[|s| - |r|..]
    ensures r == [] || !IsSpace(r[0])
    ensures forall i :: 0 <= i < |s| - |r| ==> IsSpace(s[i])
    decreases |s|
  {
    if s != [] && IsSpace(s[0]) then StripStart(s[1..]) else s
  }

  /** `s` without its trailing whitespace. */
  function StripEnd(s: string): (r: string)
    ensures |r| <= |s| && r == s[..|r|]
    ensures r == [] || !IsSpace(r[|r| - 1])
    ensures forall i :: |r| <= i < |s| ==> IsSpace(s[i])
    decreases |s|
  {
    if s != [] && IsSpace(s[|s| - 1]) then StripEnd(s[..|s| - 1]) else s
  }

  /** `str.strip()`. */
  function Strip(s: string): string {
    StripEnd(StripStart(s))
  }

  /** The prompt accepts the answer: `answer.strip().lower() == "y"`. */
  predicate Confirmed(answer: string) {
    var a := Strip(answer);
    a == "y" || a == "Y"
  }

  /** `a[k]` is a "y" or "Y" and every other character of `a` is whitespace. */
  predicate LoneY(a: string, k: int) {
    0 <= k < |a| && (a[k] == 'y' || a[k] == 'Y') &&
    forall i :: 0 <= i < |a| && i != k ==> IsSpace(a[i])
  }

  /** The prompt accepts exactly an answer made of one "y" or "Y" and
      whitespace around it. */
  lemma ConfirmedMeans(a: string)
    ensures Confirmed(a) <==> exists k :: LoneY(a, k)
  {
    if Confirmed(a) {
      ConfirmedLoneY(a);
    }
    if exists k :: LoneY(a, k) {
      var k :| LoneY(a, k);
      LoneYConfirmed(a, k);
    }
  }

  lemma ConfirmedLoneY(a: string)
    requires Confirmed(a)
    ensures LoneY(a, |a| - |StripStart(a)|)
  {
    var s1 := StripStart(a);
    var off := |a| - |s1|;
    var r := StripEnd(s1);
    assert |r| == 1 && s1[0] == r[0];
    assert a[off] == s1[0];
    forall i | 0 <= i < |a| && i != off ensures IsSpace(a[i]) {
      if i > off {
        assert a[i] == s1[i - off];
      }
    }
  }

  lemma LoneYConfirmed(a: string, k: int)
    requires LoneY(a, k)
    ensures Confirmed(a)
  {
    var s1 := StripStart(a);
    assert !IsSpace(a[k]);
    assert |a| - |s1| == k;
    assert s1[0] == a[k];
    assert StripEnd(s1) == [a[k]];
  }
}
