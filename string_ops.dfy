/** The JavaScript string operations the service relies on: `indexOf`,
    `lastIndexOf` for a single character, and `Array.prototype.join`. */
module StringOps {

  /** `s.indexOf(c)`: the first position of `c`, or -1 when it is absent. */
  function IndexOf(s: string, c: char): (r: int)
    ensures r == -1 <==> c !in s
    ensures r != -1 ==> 0 <= r < |s| && s[r] == c
    ensures forall j :: 0 <= j < |s| && s[j] == c ==> r != -1 && r <= j
  {
    if s == [] then -1
    else if s[0] == c then 0
    else
      var k := IndexOf(s[1..], c);
      if k == -1 then -1
      else k + 1
  }

  /** `s.lastIndexOf(c)`: the last position of `c`, or -1 when it is absent. */
  function LastIndexOf(s: string, c: char): (r: int)
    ensures r == -1 <==> c !in s
    ensures r != -1 ==> 0 <= r < |s| && s[r] == c
    ensures forall j :: 0 <= j < |s| && s[j] == c ==> j <= r
  {
    if s == [] then -1
    else if s[|s| - 1] == c then |s| - 1
    else
      var init := s[..|s| - 1];
      assert s == init + [s[|s| - 1]];
      var k := LastIndexOf(init, c);
      k
  }

  /** `xs.join(sep)`: the text starts with the first element and ends with
      the last; `JoinAppend` places `sep` between neighbours. */
  function Join(xs: seq<string>, sep: string): (r: string)
    ensures xs == [] ==> r == ""
    ensures |xs| == 1 ==> r == xs[0]
    ensures xs != [] ==> xs[0] <= r
    ensures xs != [] ==> |xs[|xs| - 1]| <= |r| && r[|r| - |xs[|xs| - 1]|..] == xs[|xs| - 1]
  {
    if xs == [] then ""
    else if |xs| == 1 then xs[0]
    else xs[0] + sep + Join(xs[1..], sep)
  }

  /** Appending an element appends the separator and then the element. */
  lemma {:induction false} JoinAppend(xs: seq<string>, y: string, sep: string)
    requires xs != []
    ensures Join(xs + [y], sep) == Join(xs, sep) + sep + y
  {
    if |xs| == 1 {
      assert (xs + [y])[1..] == [y];
    } else {
      assert (xs + [y])[1..] == xs[1..] + [y];
      JoinAppend(xs[1..], y, sep);
    }
  }

  /** `t` occurs in `s` starting at position `at`. */
  ghost predicate OccursAt(t: string, s: string, at: int) {
    0 <= at && at + |t| <= |s| && s[at..at + |t|] == t
  }

  /** An occurrence stays one when text is added on either side. */
  lemma OccursInContext(t: string, s: string, at: int, pre: string, post: string)
    requires OccursAt(t, s, at)
    ensures OccursAt(t, pre + s + post, |pre| + at)
  {
    var whole := pre + s + post;
    assert whole[|pre| + at..|pre| + at + |t|] == s[at..at + |t|];
  }

  /** Every element of a joined list occurs in the joined text. */
  lemma {:induction false} JoinContains(xs: seq<string>, sep: string, i: nat)
    requires i < |xs|
    ensures exists at :: OccursAt(xs[i], Join(xs, sep), at)
  {
    if |xs| == 1 {
      assert OccursAt(xs[0], Join(xs, sep), 0);
    } else if i == 0 {
      assert Join(xs, sep)[..|xs[0]|] == xs[0];
      assert OccursAt(xs[0], Join(xs, sep), 0);
    } else {
      JoinContains(xs[1..], sep, i - 1);
      var at :| OccursAt(xs[1..][i - 1], Join(xs[1..], sep), at);
      var j := Join(xs, sep);
      var off := |xs[0]| + |sep|;
      assert j == (xs[0] + sep) + Join(xs[1..], sep);
      assert j[off + at..off + at + |xs[i]|] == Join(xs[1..], sep)[at..at + |xs[i]|];
      assert OccursAt(xs[i], j, off + at);
    }
  }
}
