/** The defect classes of one split: the directory listing reordered so that
    "good" comes first (`_get_labels`), and the positional map from class
    name to integer label (`dict(zip(labels, range(len(labels))))`). */
module Labels {
  import opened Errors

  const Good: string := "good"

  /** No name is listed twice, as in any directory listing. */
  predicate Distinct(s: seq<string>)
  {
    forall a, b :: 0 <= a < b < |s| ==> s[a] != s[b]
  }

  /** `s.index(x)`: the position of the first `x`, or a ValueError when `x`
      is not in `s`. */
  function IndexOf(s: seq<string>, x: string): (r: Result<nat>)
    ensures r.Ok? <==> x in s
    ensures r.Err? ==> r.error.ValueError?
    ensures r.Ok? ==> r.value < |s| && s[r.value] == x && x !in s[..r.value]
  {
    if s == [] then Err(ValueError(x))
    else if s[0] == x then Ok(0)
    else
      var r' := IndexOf(s[1..], x);
      assert x in s <==> x in s[1..] by {
        assert s == [s[0]] + s[1..];
      }
      if r'.Err? then r'
      else
        assert s[..r'.value + 1] == [s[0]] + s[1..][..r'.value];
        Ok(r'.value + 1)
  }

  /** `labels` is `listing` with its first "good" moved to the front: putting
      "good" back where it was first listed restores the listing. */
  predicate GoodFirst(listing: seq<string>, labels: seq<string>)
  {
    && Good in listing
    && |labels| == |listing|
    && labels[0] == Good
    && var i := IndexOf(listing, Good).value;
       listing == labels[1..i + 1] + [Good] + labels[i + 1..]
  }

  /** `_get_labels`, given the listing of the split directory: finds the
      first "good" (a ValueError when there is none), pops it out of the
      list in place, and puts it at the front. */
  method GetLabels(listing: seq<string>) returns (r: Result<seq<string>>)
    ensures r.Ok? <==> Good in listing
    ensures r.Err? ==> r.error.ValueError?
    ensures r.Ok? ==> GoodFirst(listing, r.value)
  {
    var labels := listing;
    var i :- IndexOf(labels, Good);
    labels := labels[..i] + labels[i + 1..];  // labels.pop(i)
    labels := [Good] + labels;
    assert labels[1..i + 1] == listing[..i];
    assert labels[i + 1..] == listing[i + 1..];
    assert listing == listing[..i] + [Good] + listing[i + 1..];
    return Ok(labels);
  }

  /** Reordering keeps every name, with its multiplicity. */
  lemma GoodFirstIsPermutation(listing: seq<string>, labels: seq<string>)
    requires GoodFirst(listing, labels)
    ensures multiset(labels) == multiset(listing)
  {
    var i := IndexOf(listing, Good).value;
    assert labels == [Good] + labels[1..i + 1] + labels[i + 1..];
  }

  /** After "good", the labels are the listing with its first "good" removed,
      so every other name keeps its relative order. */
  lemma GoodFirstRemovesFirstGood(listing: seq<string>, labels: seq<string>)
    requires GoodFirst(listing, labels)
    ensures var i := IndexOf(listing, Good).value;
            labels[1..] == listing[..i] + listing[i + 1..]
  {
    var i := IndexOf(listing, Good).value;
    var rest := labels[1..];
    assert listing == rest[..i] + [Good] + rest[i..];
    assert listing[..i] == rest[..i];
    assert listing[i + 1..] == rest[i..];
    assert rest == rest[..i] + rest[i..];
  }

  /** The reordered labels are determined by the listing. */
  lemma GoodFirstUnique(listing: seq<string>, a: seq<string>, b: seq<string>)
    requires GoodFirst(listing, a) && GoodFirst(listing, b)
    ensures a == b
  {
    GoodFirstRemovesFirstGood(listing, a);
    GoodFirstRemovesFirstGood(listing, b);
    assert a == [a[0]] + a[1..];
    assert b == [b[0]] + b[1..];
  }

  /** The index in `listing` of the name at position `k` of the reordered
      labels. */
  function Origin(i: nat, k: nat): nat
  {
    if k == 0 then i else if k <= i then k - 1 else k
  }

  /** A listing without repeated names gives labels without repeated names. */
  lemma GoodFirstDistinct(listing: seq<string>, labels: seq<string>)
    requires GoodFirst(listing, labels) && Distinct(listing)
    ensures Distinct(labels)
  {
    var i := IndexOf(listing, Good).value;
    forall k | 0 <= k < |labels|
      ensures labels[k] == listing[Origin(i, k)]
    {
      if k == 0 {
      } else if k <= i {
        assert labels[k] == labels[1..i + 1][k - 1];
      } else {
        assert labels[k] == labels[i + 1..][k - i - 1];
      }
    }
  }

  /** Every name of `labels` is a key of `m`, and nothing else is; each key
      maps to the last position holding it. */
  predicate LastPositions(labels: seq<string>, m: map<string, nat>)
  {
    && m.Keys == (set x | x in labels)
    && forall x :: x in m ==> m[x] < |labels| && labels[m[x]] == x && x !in labels[m[x] + 1..]
  }

  /** `dict(zip(labels, range(len(labels))))`: every label maps to a
      position holding it; when a name repeats, the later pair overwrites the
      earlier, so a name maps to its last position. */
  function LabelNumMap(labels: seq<string>): (m: map<string, nat>)
    ensures LastPositions(labels, m)
  {
    if labels == [] then map[]
    else
      var n := |labels| - 1;
      var m' := LabelNumMap(labels[..n]);
      AppendPair(labels[..n], labels[n], m');
      assert labels == labels[..n] + [labels[n]];
      m'[labels[n] := n]
  }

  /** Zipping one more pair onto the map keeps it a map to last positions. */
  lemma AppendPair(front: seq<string>, y: string, m: map<string, nat>)
    requires LastPositions(front, m)
    ensures LastPositions(front + [y], m[y := |front|])
  {
    var labels := front + [y];
    var m2 := m[y := |front|];
    assert (set x | x in labels) == (set x | x in front) + {y};
    forall x | x in m2
      ensures m2[x] < |labels| && labels[m2[x]] == x && x !in labels[m2[x] + 1..]
    {
      if x != y {
        assert labels[m[x] + 1..] == front[m[x] + 1..] + [y];
      } else {
        assert labels[m2[x] + 1..] == [];
      }
    }
  }

  /** Position `k` is mapped back to `k` exactly when the name there is not
      repeated later. */
  lemma LabelNumMapAt(labels: seq<string>, k: nat)
    requires k < |labels|
    ensures labels[k] in LabelNumMap(labels)
    ensures LabelNumMap(labels)[labels[k]] == k <==> labels[k] !in labels[k + 1..]
  {
  }

  /** For a listing without repeated names, every label maps to its own
      position, and "good" to 0. */
  lemma LabelNumMapOfListing(listing: seq<string>, labels: seq<string>)
    requires GoodFirst(listing, labels) && Distinct(listing)
    ensures LabelNumMap(labels)[Good] == 0
    ensures forall k :: 0 <= k < |labels| ==> LabelNumMap(labels)[labels[k]] == k
  {
    GoodFirstDistinct(listing, labels);
    forall k | 0 <= k < |labels|
      ensures LabelNumMap(labels)[labels[k]] == k
    {
      LabelNumMapAt(labels, k);
    }
  }

  /** "good" gets integer label 0 exactly when it is listed once. */
  lemma GoodIsZero(listing: seq<string>, labels: seq<string>)
    requires GoodFirst(listing, labels)
    ensures LabelNumMap(labels)[Good] == 0 <==> multiset(listing)[Good] == 1
  {
    LabelNumMapAt(labels, 0);
    GoodFirstIsPermutation(listing, labels);
    assert labels == [Good] + labels[1..];
    assert multiset(labels)[Good] == 1 + multiset(labels[1..])[Good];
  }
}
