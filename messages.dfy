/** The status text the scripts show after each match. */
module Messages {
  import opened Matching

  const MatchPrefix: string := "Match Found: "
  const NoMatch: string := "No match found"

  /** The summed lengths of the items. */
  function TotalLength(xs: seq<string>): nat
  {
    if xs == [] then 0 else |xs[0]| + TotalLength(xs[1..])
  }

  /**
   * Python's `sep.join(xs)`: the items in order with one separator between
   * each two, starting with the first item and ending with the last.
   */
  function JoinWith(sep: string, xs: seq<string>): (r: string)
    ensures xs == [] ==> r == ""
    ensures xs != [] ==> xs[0] <= r && |xs[|xs| - 1]| <= |r| && r[|r| - |xs[|xs| - 1]|..] == xs[|xs| - 1]
    ensures |r| == TotalLength(xs) + if xs == [] then 0 else |sep| * (|xs| - 1)
    decreases |xs|
  {
    if xs == [] then ""
    else if |xs| == 1 then xs[0]
    else
      var rest := JoinWith(sep, xs[1..]);
      assert |sep| * (|xs| - 1) == |sep| * (|xs| - 2) + |sep|;
      assert (xs[0] + sep + rest)[..|xs[0]|] == xs[0];
      assert (xs[0] + sep + rest)[|xs[0]| + |sep|..] == rest;
      xs[0] + sep + rest
  }

  /** Regrouping a concatenation of five texts around a separator. */
  lemma ConcatRegroup(x: string, sep: string, y: string, z: string)
    ensures x + sep + (y + sep + z) == (x + sep + y) + sep + z
  {
  }

  /** A list of two or more items joins as its first item, a separator and the join of the rest. */
  lemma JoinWithCons(sep: string, xs: seq<string>)
    requires |xs| >= 2
    ensures JoinWith(sep, xs) == xs[0] + sep + JoinWith(sep, xs[1..])
  {
  }

  /**
   * Joining two non-empty lists one after the other puts exactly one separator
   * at the seam; with the single-item case this fixes the whole joined text.
   */
  lemma {:induction false} JoinWithAppend(sep: string, a: seq<string>, b: seq<string>)
    requires a != [] && b != []
    ensures JoinWith(sep, a + b) == JoinWith(sep, a) + sep + JoinWith(sep, b)
    decreases |a|
  {
    var ab := a + b;
    JoinWithCons(sep, ab);
    assert ab[0] == a[0];
    if |a| == 1 {
      assert ab[1..] == b;
      assert JoinWith(sep, a) == a[0];
    } else {
      var t := a[1..];
      assert ab[1..] == t + b;
      JoinWithCons(sep, a);
      JoinWithAppend(sep, t, b);
      ConcatRegroup(a[0], sep, JoinWith(sep, t), JoinWith(sep, b));
    }
  }

  /** Every joined item can be found in the joined text. */
  lemma {:induction false} JoinContainsEach(sep: string, xs: seq<string>, i: int)
    requires 0 <= i < |xs|
    ensures Contains(JoinWith(sep, xs), xs[i])
    decreases |xs|
  {
    if i == 0 {
      if |xs| > 1 {
        assert xs[0] <= xs[0] + (sep + JoinWith(sep, xs[1..]));
        assert xs[0] + sep + JoinWith(sep, xs[1..]) == xs[0] + (sep + JoinWith(sep, xs[1..]));
      }
    } else {
      JoinContainsEach(sep, xs[1..], i - 1);
      ContainsAfterPrefix(xs[0] + sep, JoinWith(sep, xs[1..]), xs[i]);
    }
  }

  /**
   * `"Match Found: " + ", ".join(matches)` when anything matched, otherwise
   * `"No match found"`: the message announces a match exactly when the list is non-empty.
   */
  function StatusMessage(matches: seq<string>): (r: string)
    ensures MatchPrefix <= r <==> matches != []
    ensures matches != [] ==> r == MatchPrefix + JoinWith(", ", matches)
    ensures matches == [] ==> r == NoMatch
  {
    if matches != [] then MatchPrefix + JoinWith(", ", matches)
    else
      assert NoMatch[0] != MatchPrefix[0];
      NoMatch
  }

  /** The message names every match. */
  lemma StatusMessageReports(matches: seq<string>)
    ensures forall i | 0 <= i < |matches| :: Contains(StatusMessage(matches), matches[i])
  {
    if matches != [] {
      forall i | 0 <= i < |matches| ensures Contains(StatusMessage(matches), matches[i]) {
        JoinContainsEach(", ", matches, i);
        ContainsAfterPrefix(MatchPrefix, JoinWith(", ", matches), matches[i]);
      }
    }
  }
}
