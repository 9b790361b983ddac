/** Python's str.join over strings, and the splitting and searching a reader of the status line uses. */
module Text {

  /** `sep.join(xs)`: the strings of xs with one sep between each neighbouring pair. */
  function Join(sep: string, xs: seq<string>): (r: string)
    ensures |xs| == 0 ==> r == ""
    ensures |xs| == 1 ==> r == xs[0]
    decreases |xs|
  {
    if |xs| == 0 then ""
    else if |xs| == 1 then xs[0]
    else xs[0] + sep + Join(sep, xs[1..])
  }

  /** A joined string begins with the first piece and ends with the last. */
  lemma {:induction false} JoinEnds(sep: string, xs: seq<string>)
    requires |xs| > 0
    ensures var r := Join(sep, xs);
      && |xs[0]| <= |r| && r[..|xs[0]|] == xs[0]
      && |xs[|xs| - 1]| <= |r| && r[|r| - |xs[|xs| - 1]|..] == xs[|xs| - 1]
    decreases |xs|
  {
    if |xs| > 1 {
      JoinEnds(sep, xs[1..]);
      var tail := Join(sep, xs[1..]);
      assert Join(sep, xs) == xs[0] + (sep + tail);
    }
  }

  /** The index of the first c in s, or |s| when there is none. */
  function IndexOf(s: string, c: char): (k: nat)
    ensures k <= |s|
    ensures k < |s| ==> s[k] == c
    ensures forall i :: 0 <= i < k ==> s[i] != c
    decreases |s|
  {
    if |s| == 0 then 0
    else if s[0] == c then 0
    else 1 + IndexOf(s[1..], c)
  }

  /** `s.split(c)`: the maximal pieces of s that do not contain c, in order. */
  function Split(s: string, c: char): (parts: seq<string>)
    ensures |parts| > 0
    ensures forall i :: 0 <= i < |parts| ==> c !in parts[i]
    decreases |s|
  {
    var k := IndexOf(s, c);
    if k == |s| then [s]
    else [s[..k]] + Split(s[k + 1..], c)
  }

  /** The first c is found just after a prefix that does not contain it. */
  lemma {:induction false} IndexOfAfter(p: string, c: char, rest: string)
    requires c !in p
    ensures IndexOf(p + [c] + rest, c) == |p|
  {
    var s := p + [c] + rest;
    if |p| > 0 {
      assert s[1..] == p[1..] + [c] + rest;
      IndexOfAfter(p[1..], c, rest);
    }
  }

  /** A string without c has no c to find. */
  lemma IndexOfAbsent(s: string, c: char)
    requires c !in s
    ensures IndexOf(s, c) == |s|
  {
  }

  /** Splitting on c takes off a first piece that does not contain c. */
  lemma SplitAfter(p: string, c: char, rest: string)
    requires c !in p
    ensures Split(p + [c] + rest, c) == [p] + Split(rest, c)
  {
    var s := p + [c] + rest;
    IndexOfAfter(p, c, rest);
    assert s[..|p|] == p;
    assert s[|p| + 1..] == rest;
  }

  /** Splitting on c undoes joining with [c], when no piece contains c. */
  lemma {:induction false} SplitJoin(xs: seq<string>, c: char)
    requires |xs| > 0
    requires forall i :: 0 <= i < |xs| ==> c !in xs[i]
    ensures Split(Join([c], xs), c) == xs
  {
    if |xs| == 1 {
      IndexOfAbsent(xs[0], c);
    } else {
      var tail := Join([c], xs[1..]);
      assert Join([c], xs) == xs[0] + [c] + tail;
      SplitAfter(xs[0], c, tail);
      SplitJoin(xs[1..], c);
      assert xs == [xs[0]] + xs[1..];
    }
  }

  /** A character occurs in a joined string exactly when it occurs in one of the pieces, or in a separator that is actually placed. */
  lemma {:induction false} JoinContains(sep: string, xs: seq<string>, c: char)
    ensures c in Join(sep, xs) <==> (exists i :: 0 <= i < |xs| && c in xs[i]) || (|xs| > 1 && c in sep)
    decreases |xs|
  {
    if |xs| > 1 {
      JoinContains(sep, xs[1..], c);
      assert forall i :: 1 <= i < |xs| ==> xs[i] == xs[1..][i - 1];
      if c in Join(sep, xs[1..]) && !(|xs[1..]| > 1 && c in sep) {
        var i :| 0 <= i < |xs[1..]| && c in xs[1..][i];
        assert c in xs[i + 1];
      }
    }
  }
}
