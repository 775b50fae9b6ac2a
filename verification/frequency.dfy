/** The "most frequent numbers" statistic of the lottery history.

    The source counts occurrences in a plain object keyed by number, lists its
    entries with `Object.entries`, sorts them by count with a stable sort
    and keeps the first five keys. JavaScript fixes the entry order: keys that
    are array indices (integers 0 .. 2^32 - 2) come first in ascending order,
    every other key (negative numbers, and integers of 2^32 - 1 and above)
    follows in the order it was first assigned. A stable sort by descending count is the same as a sort by
    (count descending, entry position ascending), which is how it is modelled. */
module Frequency {

  /** How often `v` occurs in `xs`. */
  function Count(xs: seq<int>, v: int): nat {
    multiset(xs)[v]
  }

  predicate Distinct(s: seq<int>) {
    forall i, j :: 0 <= i < j < |s| ==> s[i] != s[j]
  }

  predicate Increasing(s: seq<int>) {
    forall i, j :: 0 <= i < j < |s| ==> s[i] < s[j]
  }

  /** Where `v` first occurs in `xs`. */
  function FirstIndex(xs: seq<int>, v: int): (i: nat)
    requires v in xs
    ensures i < |xs| && xs[i] == v
  {
    if xs[0] == v then 0
    else
      assert xs == [xs[0]] + xs[1..];
      1 + FirstIndex(xs[1..], v)
  }

  /** `s` lists values of `xs` in the order of their first occurrence in `xs`. */
  predicate InFirstOrder(xs: seq<int>, s: seq<int>) {
    && (forall k :: 0 <= k < |s| ==> s[k] in xs)
    && (forall i, j :: 0 <= i < j < |s| ==> FirstIndex(xs, s[i]) < FirstIndex(xs, s[j]))
  }

  /** A value already in the front of `xs` first occurs where it first occurs
      in that front. */
  lemma {:induction false} FirstIndexInFront(xs: seq<int>, n: nat, v: int)
    requires n <= |xs| && v in xs[..n]
    ensures v in xs && FirstIndex(xs, v) == FirstIndex(xs[..n], v)
    decreases n
  {
    assert xs[..n][0] == xs[0];
    if xs[0] != v {
      assert xs[..n] == [xs[0]] + xs[1..][..n - 1];
      FirstIndexInFront(xs[1..], n - 1, v);
    }
  }

  /** A value missing from the front of `xs` first occurs after it. */
  lemma {:induction false} FirstIndexAfterFront(xs: seq<int>, n: nat, v: int)
    requires n <= |xs| && v in xs && v !in xs[..n]
    ensures FirstIndex(xs, v) >= n
    decreases n
  {
    if n > 0 {
      assert xs[..n] == [xs[0]] + xs[1..][..n - 1];
      FirstIndexAfterFront(xs[1..], n - 1, v);
    }
  }

  /** The values of `xs`, each once, in order of first occurrence: the order in
      which the counting loop creates the object's properties. */
  function FirstOccurrences(xs: seq<int>): (r: seq<int>)
    ensures Distinct(r)
    ensures forall v :: v in r <==> v in xs
  {
    if |xs| == 0 then []
    else
      var d := FirstOccurrences(xs[..|xs| - 1]);
      assert xs == xs[..|xs| - 1] + [xs[|xs| - 1]];
      if xs[|xs| - 1] in d then d else d + [xs[|xs| - 1]]
  }

  /** The counting loop creates the properties in the order in which their
      values first occur in the draws. */
  lemma {:induction false} FirstOccurrencesInOrder(xs: seq<int>)
    ensures InFirstOrder(xs, FirstOccurrences(xs))
  {
    if |xs| > 0 {
      var n := |xs| - 1;
      var d := FirstOccurrences(xs[..n]);
      FirstOccurrencesInOrder(xs[..n]);
      assert xs == xs[..n] + [xs[n]];
      forall k | 0 <= k < |d|
        ensures d[k] in xs && FirstIndex(xs, d[k]) == FirstIndex(xs[..n], d[k]) < n
      {
        assert d[k] in d;
        FirstIndexInFront(xs, n, d[k]);
      }
      if xs[n] !in d {
        assert xs[n] !in xs[..n];
        FirstIndexAfterFront(xs, n, xs[n]);
        AppendInOrder(xs, d, xs[n]);
      }
    }
  }

  lemma AppendInOrder(xs: seq<int>, d: seq<int>, x: int)
    requires InFirstOrder(xs, d) && x in xs
    requires forall k :: 0 <= k < |d| ==> FirstIndex(xs, d[k]) < FirstIndex(xs, x)
    ensures InFirstOrder(xs, d + [x])
  {
    var r := d + [x];
    forall i, j | 0 <= i < j < |r|
      ensures FirstIndex(xs, r[i]) < FirstIndex(xs, r[j])
    {
      assert r[i] == d[i];
      if j < |d| {
        assert r[j] == d[j];
      }
    }
  }

  /** The largest array index a JavaScript object key can denote. */
  const MaxArrayIndex := 0xFFFF_FFFE

  predicate IsArrayIndex(v: int) {
    0 <= v <= MaxArrayIndex
  }

  /** The elements of `s` whose array-index status is `index`, in their order. */
  function Select(s: seq<int>, index: bool): (r: seq<int>)
    ensures forall v :: v in r <==> v in s && IsArrayIndex(v) == index
    ensures Distinct(s) ==> Distinct(r)
  {
    if |s| == 0 then []
    else if IsArrayIndex(s[0]) == index then [s[0]] + Select(s[1..], index)
    else Select(s[1..], index)
  }

  /** Selecting keeps the order of first occurrence. */
  lemma {:induction false} SelectKeepsOrder(xs: seq<int>, s: seq<int>, index: bool)
    requires InFirstOrder(xs, s)
    ensures InFirstOrder(xs, Select(s, index))
    decreases |s|
  {
    if |s| > 0 {
      var tail := s[1..];
      assert InFirstOrder(xs, tail) by {
        forall i, j | 0 <= i < j < |tail|
          ensures FirstIndex(xs, tail[i]) < FirstIndex(xs, tail[j])
        {
          assert tail[i] == s[i + 1] && tail[j] == s[j + 1];
        }
      }
      SelectKeepsOrder(xs, tail, index);
      if IsArrayIndex(s[0]) == index {
        var rest := Select(tail, index);
        forall k | 0 <= k < |rest|
          ensures FirstIndex(xs, s[0]) < FirstIndex(xs, rest[k])
        {
          assert rest[k] in rest;
          assert rest[k] in tail;
          var m :| 0 <= m < |tail| && tail[m] == rest[k];
          assert s[m + 1] == rest[k];
        }
        PrependInOrder(xs, s[0], rest);
      }
    }
  }

  lemma PrependInOrder(xs: seq<int>, x: int, rest: seq<int>)
    requires x in xs && InFirstOrder(xs, rest)
    requires forall k :: 0 <= k < |rest| ==> FirstIndex(xs, x) < FirstIndex(xs, rest[k])
    ensures InFirstOrder(xs, [x] + rest)
  {
    var r := [x] + rest;
    forall i, j | 0 <= i < j < |r|
      ensures FirstIndex(xs, r[i]) < FirstIndex(xs, r[j])
    {
      if i == 0 {
        assert r[j] == rest[j - 1];
      } else {
        assert r[i] == rest[i - 1] && r[j] == rest[j - 1];
      }
    }
  }

  /** Places `x` into an increasing sequence. */
  function InsertAscending(x: int, s: seq<int>): (r: seq<int>)
    requires Increasing(s) && x !in s
    ensures Increasing(r)
    ensures forall v :: v in r <==> v in s || v == x
  {
    if |s| == 0 || x < s[0] then [x] + s
    else
      var rest := InsertAscending(x, s[1..]);
      assert forall k :: 0 <= k < |rest| ==> s[0] < rest[k] by {
        forall k | 0 <= k < |rest|
          ensures s[0] < rest[k]
        {
          assert rest[k] in rest;
        }
      }
      [s[0]] + rest
  }

  /** A sequence of distinct integers in ascending order. */
  function SortAscending(s: seq<int>): (r: seq<int>)
    requires Distinct(s)
    ensures Increasing(r)
    ensures forall v :: v in r <==> v in s
  {
    if |s| == 0 then []
    else
      var rest := SortAscending(s[..|s| - 1]);
      assert s == s[..|s| - 1] + [s[|s| - 1]];
      InsertAscending(s[|s| - 1], rest)
  }

  /** The property keys of the frequency object, in `Object.entries` order. */
  function Keys(xs: seq<int>): (r: seq<int>)
    ensures Distinct(r)
    ensures forall v :: v in r <==> v in xs
    ensures forall i, j :: 0 <= i < j < |r| && IsArrayIndex(r[j]) ==>
      IsArrayIndex(r[i]) && r[i] < r[j]
  {
    var first := FirstOccurrences(xs);
    var indices := SortAscending(Select(first, true));
    var others := Select(first, false);
    var r := indices + others;
    assert forall k :: |indices| <= k < |r| ==> r[k] in others;

    forall i, j | 0 <= i < j < |r|
      ensures r[i] != r[j]
    {
      if j < |indices| {
      } else if i >= |indices| {
        assert r[i] == others[i - |indices|] && r[j] == others[j - |indices|];
      } else {
        assert r[i] in indices;
      }
    }
    r
  }

  /** Keys that are not array indices (negative numbers, and integers of
      2^32 - 1 and above) follow the
      array indices in the order the counting loop first assigned them. */
  lemma KeysOthersInFirstOrder(xs: seq<int>)
    ensures var r := Keys(xs);
      forall i, j :: 0 <= i < j < |r| && !IsArrayIndex(r[i]) ==>
        !IsArrayIndex(r[j]) && r[i] in xs && r[j] in xs && FirstIndex(xs, r[i]) < FirstIndex(xs, r[j])
  {
    var first := FirstOccurrences(xs);
    var indices := SortAscending(Select(first, true));
    var others := Select(first, false);
    assert Keys(xs) == indices + others;
    FirstOccurrencesInOrder(xs);
    SelectKeepsOrder(xs, first, false);
    forall k | 0 <= k < |indices|
      ensures IsArrayIndex(indices[k])
    {
      assert indices[k] in indices;
    }
    forall k | 0 <= k < |others|
      ensures !IsArrayIndex(others[k])
    {
      assert others[k] in others;
    }
    IndicesThenOthers(xs, indices, others);
  }

  lemma IndicesThenOthers(xs: seq<int>, indices: seq<int>, others: seq<int>)
    requires forall k :: 0 <= k < |indices| ==> IsArrayIndex(indices[k])
    requires forall k :: 0 <= k < |others| ==> !IsArrayIndex(others[k])
    requires InFirstOrder(xs, others)
    ensures var r := indices + others;
      forall i, j :: 0 <= i < j < |r| && !IsArrayIndex(r[i]) ==>
        !IsArrayIndex(r[j]) && r[i] in xs && r[j] in xs && FirstIndex(xs, r[i]) < FirstIndex(xs, r[j])
  {
    var r := indices + others;
    forall i, j | 0 <= i < j < |r| && !IsArrayIndex(r[i])
      ensures !IsArrayIndex(r[j]) && r[i] in xs && r[j] in xs && FirstIndex(xs, r[i]) < FirstIndex(xs, r[j])
    {
      assert r[i] == others[i - |indices|] && r[j] == others[j - |indices|];
    }
  }

  /** The counting loop `numberFrequency[num] = (numberFrequency[num] || 0) + 1`
      run over `xs` in order: one property per drawn value, holding how often
      it was drawn. */
  function Tally(xs: seq<int>): (m: map<int, nat>)
    ensures forall v :: v in m <==> v in xs
    ensures forall v :: v in m ==> m[v] == Count(xs, v)
  {
    if |xs| == 0 then map[]
    else
      var front := xs[..|xs| - 1];
      var num := xs[|xs| - 1];
      var m := Tally(front);
      assert xs == front + [num];
      assert multiset(xs) == multiset(front) + multiset{num};
      m[num := (if num in m then m[num] else 0) + 1]
  }

  /** One `[key, count]` entry, remembering its position in entry order. */
  datatype Entry = Entry(key: int, count: nat, pos: nat)

  /** The entries of the frequency object, in `Object.entries` order, with
      the counts the counting loop left in it. */
  function Entries(xs: seq<int>): (r: seq<Entry>)
    ensures |r| == |Keys(xs)|
    ensures forall p :: 0 <= p < |r| ==> r[p] == Entry(Keys(xs)[p], Count(xs, Keys(xs)[p]), p)
  {
    var k := Keys(xs);
    var m := Tally(xs);
    assert forall p :: 0 <= p < |k| ==> k[p] in m by {
      forall p | 0 <= p < |k|
        ensures k[p] in m
      {
        assert k[p] in k;
      }
    }
    seq(|k|, p requires 0 <= p < |k| => Entry(k[p], m[k[p]], p))
  }

  /** `a` precedes `b` after a stable sort by descending count. */
  predicate Before(a: Entry, b: Entry) {
    a.count > b.count || (a.count == b.count && a.pos < b.pos)
  }

  predicate SortedByCount(s: seq<Entry>) {
    forall i, j :: 0 <= i < j < |s| ==> Before(s[i], s[j])
  }

  /** Inserts an entry that came later in entry order behind every entry whose
      count is at least its own: one step of a stable sort by descending count. */
  function InsertByCount(e: Entry, s: seq<Entry>): (r: seq<Entry>)
    requires SortedByCount(s)
    requires forall k :: 0 <= k < |s| ==> s[k].pos < e.pos
    ensures SortedByCount(r)
    ensures multiset(r) == multiset(s) + multiset{e}
  {
    if |s| == 0 then [e]
    else if s[0].count >= e.count then
      var rest := InsertByCount(e, s[1..]);
      assert s == [s[0]] + s[1..];
      HeadBeforeTail(s);
      forall k | 0 <= k < |rest|
        ensures Before(s[0], rest[k])
      {
        assert rest[k] in multiset(s[1..]) + multiset{e} by {
          assert rest[k] in multiset(rest);
        }
      }
      PrependSorted(s[0], rest);
      [s[0]] + rest
    else
      PrependSorted(e, s);
      [e] + s
  }

  lemma HeadBeforeTail(s: seq<Entry>)
    requires SortedByCount(s) && |s| > 0
    ensures forall y :: y in s[1..] ==> Before(s[0], y)
  {
    forall y | y in s[1..]
      ensures Before(s[0], y)
    {
      var m :| 0 <= m < |s[1..]| && s[1..][m] == y;
      assert s[m + 1] == y;
    }
  }

  lemma PrependSorted(x: Entry, rest: seq<Entry>)
    requires SortedByCount(rest)
    requires forall k :: 0 <= k < |rest| ==> Before(x, rest[k])
    ensures SortedByCount([x] + rest)
  {
    var r := [x] + rest;
    forall i, j | 0 <= i < j < |r|
      ensures Before(r[i], r[j])
    {
      if i > 0 {
        assert r[i] == rest[i - 1] && r[j] == rest[j - 1];
      } else {
        assert r[j] == rest[j - 1];
      }
    }
  }

  /** Stable sort by descending count, taking the entries in entry order. */
  function SortByCount(es: seq<Entry>): (r: seq<Entry>)
    requires forall i, j :: 0 <= i < j < |es| ==> es[i].pos < es[j].pos
    ensures SortedByCount(r)
    ensures multiset(r) == multiset(es)
  {
    if |es| == 0 then []
    else
      var front := es[..|es| - 1];
      var sorted := SortByCount(front);
      assert es == front + [es[|es| - 1]];
      forall k | 0 <= k < |sorted|
        ensures sorted[k].pos < es[|es| - 1].pos
      {
        assert sorted[k] in multiset(front);
      }
      InsertByCount(es[|es| - 1], sorted)
  }

  /** `mostFrequentNumbers`: the keys of the first five entries after sorting.
      There are five of them, or as many as there are distinct drawn values. */
  function MostFrequent(xs: seq<int>): (r: seq<int>)
    ensures |r| == (if |Keys(xs)| < 5 then |Keys(xs)| else 5)
  {
    var es := Entries(xs);
    var sorted := SortByCount(es);
    assert |sorted| == |es| by {
      assert |multiset(sorted)| == |multiset(es)|;
    }
    var n := if |sorted| < 5 then |sorted| else 5;
    seq(n, i requires 0 <= i < n => sorted[i].key)
  }

  /** The sorted entries are exactly the entries: one per key, each with its
      key's position and count. */
  lemma SortedEntriesFaithful(xs: seq<int>)
    ensures var k := Keys(xs); var s := SortByCount(Entries(xs));
      && |s| == |k|
      && (forall i :: 0 <= i < |s| ==>
            0 <= s[i].pos < |k| && s[i].key == k[s[i].pos] && s[i].count == Count(xs, s[i].key))
      && (forall v :: v in xs ==> exists j :: 0 <= j < |s| && s[j].key == v)
  {
    var k := Keys(xs);
    var es := Entries(xs);
    var s := SortByCount(es);
    assert |s| == |es| by {
      assert |multiset(s)| == |multiset(es)|;
    }
    forall i | 0 <= i < |s|
      ensures 0 <= s[i].pos < |k| && s[i].key == k[s[i].pos] && s[i].count == Count(xs, s[i].key)
    {
      assert s[i] in multiset(es);
      var p :| 0 <= p < |es| && es[p] == s[i];
    }
    forall v | v in xs
      ensures exists j :: 0 <= j < |s| && s[j].key == v
    {
      var p :| 0 <= p < |k| && k[p] == v;
      assert es[p] in multiset(s);
      var j :| 0 <= j < |s| && s[j] == es[p];
    }
  }

  /** What the five most frequent numbers are: at most five distinct values,
      each drawn at least once, by non-increasing frequency. */
  lemma MostFrequentRanked(xs: seq<int>)
    ensures var r := MostFrequent(xs);
      && |r| <= 5
      && Distinct(r)
      && (forall i :: 0 <= i < |r| ==> r[i] in xs)
      && (forall i, j :: 0 <= i < j < |r| ==> Count(xs, r[i]) >= Count(xs, r[j]))
  {
    SortedEntriesFaithful(xs);
    MostFrequentPrefix(xs);
    RankedPrefix(xs, Keys(xs), SortByCount(Entries(xs)), MostFrequent(xs));
  }

  /** The listed numbers are the keys of the first sorted entries. */
  lemma MostFrequentPrefix(xs: seq<int>)
    ensures var s := SortByCount(Entries(xs)); var r := MostFrequent(xs);
      |r| <= 5 && |r| <= |s| && forall m :: 0 <= m < |r| ==> r[m] == s[m].key
  {
    SortedEntriesFaithful(xs);
  }

  /** The keys of a prefix of entries sorted by count are distinct drawn
      values by non-increasing count. */
  lemma RankedPrefix(xs: seq<int>, k: seq<int>, s: seq<Entry>, r: seq<int>)
    requires Distinct(k) && forall v :: v in k <==> v in xs
    requires SortedByCount(s)
    requires forall i :: 0 <= i < |s| ==>
      0 <= s[i].pos < |k| && s[i].key == k[s[i].pos] && s[i].count == Count(xs, s[i].key)
    requires |r| <= |s| && forall m :: 0 <= m < |r| ==> r[m] == s[m].key
    ensures Distinct(r)
    ensures forall i :: 0 <= i < |r| ==> r[i] in xs
    ensures forall i, j :: 0 <= i < j < |r| ==> Count(xs, r[i]) >= Count(xs, r[j])
  {
    forall i, j | 0 <= i < j < |r|
      ensures r[i] != r[j] && Count(xs, r[i]) >= Count(xs, r[j])
    {
      assert Before(s[i], s[j]);
    }
    forall i | 0 <= i < |r|
      ensures r[i] in xs
    {
      assert r[i] == k[s[i].pos];
      assert r[i] in k;
    }
  }

  /** The five are the top five: a drawn value left out is no more frequent
      than any value listed. */
  lemma MostFrequentIsTop(xs: seq<int>)
    ensures var r := MostFrequent(xs);
      forall v, i :: v in xs && v !in r && 0 <= i < |r| ==> Count(xs, v) <= Count(xs, r[i])
  {
    var s := SortByCount(Entries(xs));
    var r := MostFrequent(xs);
    SortedEntriesFaithful(xs);
    forall v, i | v in xs && v !in r && 0 <= i < |r|
      ensures Count(xs, v) <= Count(xs, r[i])
    {
      var j :| 0 <= j < |s| && s[j].key == v;
      TopFiveMembers(xs, j);
      assert Before(s[i], s[j]);
    }
  }

  /** When fewer than five numbers are listed, every drawn value is listed. */
  lemma MostFrequentComplete(xs: seq<int>)
    ensures var r := MostFrequent(xs);
      |r| < 5 ==> forall v :: v in xs ==> v in r
  {
    var s := SortByCount(Entries(xs));
    var r := MostFrequent(xs);
    SortedEntriesFaithful(xs);
    if |r| < 5 {
      forall v | v in xs
        ensures v in r
      {
        var j :| 0 <= j < |s| && s[j].key == v;
        TopFiveMembers(xs, j);
      }
    }
  }

  /** The sorted entry at `j` is listed exactly when `j` is among the first five. */
  lemma TopFiveMembers(xs: seq<int>, j: nat)
    ensures var s := SortByCount(Entries(xs)); var r := MostFrequent(xs);
      j < |s| ==> (j < 5 ==> j < |r| && r[j] == s[j].key) && (|r| < 5 ==> j < |r|)
  {
  }

  /** Ties keep entry order, so equally frequent array-index values (the
      digits among them) come out in ascending order, ahead of any equally
      frequent value that is not an array index. When ties cross the cut after five, the
      smallest array indices are the ones listed. */
  lemma MostFrequentTiesAscending(xs: seq<int>)
    ensures var r := MostFrequent(xs);
      forall i, j :: 0 <= i < j < |r| && Count(xs, r[i]) == Count(xs, r[j]) && IsArrayIndex(r[j]) ==>
        IsArrayIndex(r[i]) && r[i] < r[j]
    ensures var r := MostFrequent(xs);
      forall v, i :: v in xs && v !in r && 0 <= i < |r| && Count(xs, v) == Count(xs, r[i]) && IsArrayIndex(v) ==>
        IsArrayIndex(r[i]) && r[i] < v
  {
    var s := SortByCount(Entries(xs));
    var r := MostFrequent(xs);
    SortedEntriesFaithful(xs);
    forall i, j | 0 <= i < j < |r| && Count(xs, r[i]) == Count(xs, r[j]) && IsArrayIndex(r[j])
      ensures IsArrayIndex(r[i]) && r[i] < r[j]
    {
      assert Before(s[i], s[j]);
    }
    TiedLeftOutAreLarger(xs);
  }

  /** The tie rules for digits: equally frequent digits are listed in
      ascending order, and a digit left out is larger than every listed
      digit as frequent as it. */
  lemma MostFrequentDigitTies(xs: seq<int>)
    ensures var r := MostFrequent(xs);
      && (forall i, j ::
            (0 <= i < j < |r| && Count(xs, r[i]) == Count(xs, r[j])
             && 0 <= r[i] <= 9 && 0 <= r[j] <= 9) ==> r[i] < r[j])
      && (forall v, i ::
            (v in xs && v !in r && 0 <= i < |r| && Count(xs, v) == Count(xs, r[i])
             && 0 <= v <= 9) ==> 0 <= r[i] < v)
  {
    MostFrequentTiesAscending(xs);
  }

  /** A drawn array-index value left out although it is as frequent as a
      listed value is larger than that value, which is itself an array index. */
  lemma TiedLeftOutAreLarger(xs: seq<int>)
    ensures var r := MostFrequent(xs);
      forall v, i :: v in xs && v !in r && 0 <= i < |r| && Count(xs, v) == Count(xs, r[i]) && IsArrayIndex(v) ==>
        IsArrayIndex(r[i]) && r[i] < v
  {
    var s := SortByCount(Entries(xs));
    var r := MostFrequent(xs);
    SortedEntriesFaithful(xs);
    forall v, i | v in xs && v !in r && 0 <= i < |r| && Count(xs, v) == Count(xs, r[i]) && IsArrayIndex(v)
      ensures IsArrayIndex(r[i]) && r[i] < v
    {
      var j :| 0 <= j < |s| && s[j].key == v;
      TopFiveMembers(xs, j);
      assert r[i] == s[i].key;
      assert i < j;
      assert Before(s[i], s[j]);
    }
  }
}
