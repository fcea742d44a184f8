/** The string operations the dataset code performs on paths: splitting on the
    path separator, joining with it, and taking the text before the first
    occurrence of a file extension. One fixed separator stands for `os.sep`. */
module Paths {

  const Sep: char := '/'

  /** The position of the first separator in `s`. */
  function FirstSep(s: string): (i: nat)
    requires Sep in s
    ensures i < |s| && s[i] == Sep && Sep !in s[..i]
  {
    if s[0] == Sep then 0
    else
      assert Sep in s[1..] by {
        assert s == [s[0]] + s[1..];
      }
      var i := FirstSep(s[1..]);
      assert s[..i + 1] == [s[0]] + s[1..][..i];
      i + 1
  }

  /** `s.split(Sep)`: the pieces between separators, in order. There is at
      least one piece, exactly one when `s` has no separator, and no piece
      holds a separator. */
  function Split(s: string): (r: seq<string>)
    ensures |r| >= 1
    ensures |r| == 1 <==> Sep !in s
    ensures Segments(r)
    decreases |s|
  {
    if Sep !in s then [s]
    else
      var i := FirstSep(s);
      assert s == s[..i] + [Sep] + s[i + 1..];
      [s[..i]] + Split(s[i + 1..])
  }

  /** Splitting gives one more piece than there are separators. */
  lemma {:induction false} SplitCount(s: string)
    ensures |Split(s)| == multiset(s)[Sep] + 1
    decreases |s|
  {
    if Sep in s {
      var i := FirstSep(s);
      SplitCount(s[i + 1..]);
      assert s == s[..i] + [Sep] + s[i + 1..];
      assert multiset(s[..i])[Sep] == 0;
    } else {
      assert multiset(s)[Sep] == 0;
    }
  }

  /** `Sep.join(parts)`. */
  function Join(parts: seq<string>): string
  {
    if |parts| == 0 then ""
    else if |parts| == 1 then parts[0]
    else parts[0] + [Sep] + Join(parts[1..])
  }

  /** True when no part contains the separator, so that the parts survive a
      join followed by a split. */
  predicate Segments(parts: seq<string>)
  {
    forall i :: 0 <= i < |parts| ==> Sep !in parts[i]
  }

  /** Joining in front of at least one more part puts a separator between. */
  lemma JoinCons(p: string, parts: seq<string>)
    requires |parts| >= 1
    ensures Join([p] + parts) == p + [Sep] + Join(parts)
  {
    assert ([p] + parts)[1..] == parts;
  }

  /** Joining the pieces of a split gives back the original string. */
  lemma {:induction false} JoinSplit(s: string)
    ensures Join(Split(s)) == s
    decreases |s|
  {
    if Sep in s {
      var i := FirstSep(s);
      var rest := s[i + 1..];
      JoinSplit(rest);
      JoinCons(s[..i], Split(rest));
      assert s == s[..i] + [Sep] + rest;
    }
  }

  /** The first separator after a separator-free prefix is the one right
      after it. */
  lemma FirstSepAfter(a: string, b: string)
    requires Sep !in a
    ensures FirstSep(a + [Sep] + b) == |a|
  {
    var s := a + [Sep] + b;
    var i := FirstSep(s);
    assert s[..|a|] == a;
    assert s[|a|] == Sep;
    assert forall k :: 0 <= k < i ==> s[..i][k] == s[k];
  }

  /** A separator after a separator-free prefix splits off exactly that prefix. */
  lemma SplitAfter(a: string, b: string)
    requires Sep !in a
    ensures Split(a + [Sep] + b) == [a] + Split(b)
  {
    var s := a + [Sep] + b;
    FirstSepAfter(a, b);
    assert s[..|a|] == a;
    assert s[|a| + 1..] == b;
  }

  /** Splitting the join of separator-free parts gives back the parts. */
  lemma {:induction false} SplitJoin(parts: seq<string>)
    requires |parts| >= 1 && Segments(parts)
    ensures Split(Join(parts)) == parts
  {
    if |parts| == 1 {
      assert Sep !in parts[0];
    } else {
      SplitJoin(parts[1..]);
      SplitAfter(parts[0], Join(parts[1..]));
      assert parts == [parts[0]] + parts[1..];
    }
  }

  /** `t` occurs in `s` starting at index `i`. */
  predicate OccursAt(s: string, t: string, i: int)
  {
    0 <= i && i + |t| <= |s| && s[i..i + |t|] == t
  }

  /** `s.split(t)[0]` for a non-empty `t`: the text before the first
      occurrence of `t`, or all of `s` when `t` does not occur. */
  function BeforeFirst(s: string, t: string): (r: string)
    requires t != []
    ensures r <= s
    ensures forall i :: 0 <= i < |r| ==> !OccursAt(s, t, i)
    ensures r != s ==> OccursAt(s, t, |r|)
    decreases |s|
  {
    if |s| < |t| then s
    else if s[..|t|] == t then []
    else
      var r' := BeforeFirst(s[1..], t);
      var r := [s[0]] + r';
      assert !OccursAt(s, t, 0);
      assert forall i :: 1 <= i < |r| ==> !OccursAt(s, t, i) by {
        forall i | 1 <= i < |r|
          ensures !OccursAt(s, t, i)
        {
          OccursShift(s, t, i - 1);
        }
      }
      assert r != s ==> OccursAt(s, t, |r|) by {
        if r != s {
          assert r' != s[1..];
          OccursShift(s, t, |r'|);
        }
      }
      assert s == [s[0]] + s[1..];
      r
  }

  /** Dropping the first character moves every occurrence one place left. */
  lemma OccursShift(s: string, t: string, i: nat)
    requires s != []
    ensures OccursAt(s[1..], t, i) <==> OccursAt(s, t, i + 1)
  {
    if i + 1 + |t| <= |s| {
      assert s[1..][i..i + |t|] == s[i + 1..i + 1 + |t|];
    }
  }

  /** `s.split(t)[0]` is all of `s` exactly when `t` does not occur in `s`. */
  lemma BeforeFirstWhole(s: string, t: string)
    requires t != []
    ensures BeforeFirst(s, t) == s <==> forall i :: 0 <= i <= |s| ==> !OccursAt(s, t, i)
  {
  }

  /** When `t` first occurs in `stem + t` at its end, the text before it is
      the stem: `"003.png".split(".png")[0] == "003"`. */
  lemma BeforeFirstStem(stem: string, t: string)
    requires t != []
    requires forall i :: 0 <= i < |stem| ==> !OccursAt(stem + t, t, i)
    ensures BeforeFirst(stem + t, t) == stem
  {
    var s := stem + t;
    var r := BeforeFirst(s, t);
    assert OccursAt(s, t, |stem|) by {
      assert s[|stem|..|stem| + |t|] == t;
    }
    assert |r| == |stem|;
    assert r == s[..|r|] == stem;
  }
}
