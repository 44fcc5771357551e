/**
 * `SortAndSlice`: rank a batch of observations by the number shown in their
 * price text, highest first, and keep the first `slice` of them.
 *
 * The number is read by stripping the first comma of the price text and
 * handing the rest to a locale-aware parser; that parser (with the `Number`
 * conversion applied to its result) is the parameter `parse`, any total
 * function from text to an integer.
 */
module Ranking {
  import opened Records

  /** Index of the first comma in `s`, or `|s|` when there is none. */
  function CommaIndex(s: string): (i: nat)
    ensures i <= |s|
    ensures forall k :: 0 <= k < i ==> s[k] != ','
    ensures i < |s| ==> s[i] == ','
    decreases |s|
  {
    if s == [] || s[0] == ',' then 0 else 1 + CommaIndex(s[1..])
  }

  /** `text.replace(",", "")`: only the first comma is removed. */
  function StripFirstComma(s: string): (r: string)
    ensures ',' in s <==> |r| == |s| - 1
    ensures ',' !in s ==> r == s
  {
    var i := CommaIndex(s);
    if i < |s| then s[..i] + s[i + 1..] else s
  }

  /** A text without a comma is parsed as it is. */
  lemma StripWithoutComma(s: string)
    requires ',' !in s
    ensures StripFirstComma(s) == s
  {
    if CommaIndex(s) < |s| {
      assert false;
    }
  }

  /**
   * Exactly one comma is removed from a text holding one or more: the first
   * one, with the text before it and the text after it kept in order.
   */
  lemma StripRemovesOneComma(s: string)
    requires ',' in s
    ensures |StripFirstComma(s)| == |s| - 1
    ensures multiset(StripFirstComma(s)) == multiset(s) - multiset{','}
    ensures var i := CommaIndex(s);
      StripFirstComma(s)[..i] == s[..i] && StripFirstComma(s)[i..] == s[i + 1..]
  {
    var i := CommaIndex(s);
    assert i < |s|;
    var before, after := s[..i], s[i + 1..];
    assert StripFirstComma(s) == before + after;
    assert s == before + [s[i]] + after;
    JoinParts(before, after);
  }

  /** The two halves of a concatenation are recovered by slicing at the seam. */
  lemma JoinParts<T>(a: seq<T>, b: seq<T>)
    ensures (a + b)[..|a|] == a && (a + b)[|a|..] == b
  {
  }

  /**
   * The ranking key of an observation: the parsed number of its price text
   * after the first comma is stripped.
   */
  function PriceKey(parse: string -> int): (key: Observation -> int)
    ensures forall o: Observation, o': Observation :: o.prices.price == o'.prices.price ==> key(o) == key(o')
    ensures forall o: Observation :: ',' !in o.prices.price ==> key(o) == parse(o.prices.price)
    ensures forall o: Observation :: key(o) == parse(StripFirstComma(o.prices.price))
  {
    var key := (o: Observation) => parse(StripFirstComma(o.prices.price));
    assert forall o: Observation :: key(o) == parse(StripFirstComma(o.prices.price));
    key
  }

  /** Non-increasing by key. */
  predicate SortedDesc(key: Observation -> int, s: seq<Observation>) {
    forall i, j :: 0 <= i < j < |s| ==> key(s[i]) >= key(s[j])
  }

  /** The entries of `s` whose key is `v`, in their order in `s`. */
  function KeyFilter(key: Observation -> int, s: seq<Observation>, v: int): seq<Observation>
    decreases |s|
  {
    if s == [] then []
    else (if key(s[0]) == v then [s[0]] else []) + KeyFilter(key, s[1..], v)
  }

  /** Places `x` after every entry of `s` whose key is at least its own. */
  function Insert(key: Observation -> int, x: Observation, s: seq<Observation>): (r: seq<Observation>)
    ensures |r| == |s| + 1
    ensures r[0] == x || (s != [] && r[0] == s[0])
    decreases |s|
  {
    if s == [] then [x]
    else if key(s[0]) >= key(x) then [s[0]] + Insert(key, x, s[1..])
    else [x] + s
  }

  /** Inserting adds exactly the one entry. */
  lemma {:induction false} InsertPermutes(key: Observation -> int, x: Observation, s: seq<Observation>)
    ensures multiset(Insert(key, x, s)) == multiset(s) + multiset{x}
    decreases |s|
  {
    if s != [] && key(s[0]) >= key(x) {
      InsertPermutes(key, x, s[1..]);
      assert s == [s[0]] + s[1..];
    }
  }

  lemma {:induction false} InsertSorted(key: Observation -> int, x: Observation, s: seq<Observation>)
    requires SortedDesc(key, s)
    ensures SortedDesc(key, Insert(key, x, s))
    decreases |s|
  {
    if s != [] && key(s[0]) >= key(x) {
      InsertSorted(key, x, s[1..]);
    }
  }

  /**
   * The reference ranking: a stable sort by non-increasing key (entries with
   * equal keys keep their input order).
   */
  function SortDesc(key: Observation -> int, s: seq<Observation>): (r: seq<Observation>)
    ensures |r| == |s|
    decreases |s|
  {
    if s == [] then [] else Insert(key, s[|s| - 1], SortDesc(key, s[..|s| - 1]))
  }

  /** The ranking is ordered by non-increasing key. */
  lemma {:induction false} SortDescSorted(key: Observation -> int, s: seq<Observation>)
    ensures SortedDesc(key, SortDesc(key, s))
    decreases |s|
  {
    if s != [] {
      SortDescSorted(key, s[..|s| - 1]);
      InsertSorted(key, s[|s| - 1], SortDesc(key, s[..|s| - 1]));
    }
  }

  /** The ranking is a permutation of its input. */
  lemma {:induction false} SortDescPermutes(key: Observation -> int, s: seq<Observation>)
    ensures multiset(SortDesc(key, s)) == multiset(s)
    decreases |s|
  {
    if s != [] {
      SortDescPermutes(key, s[..|s| - 1]);
      InsertPermutes(key, s[|s| - 1], SortDesc(key, s[..|s| - 1]));
      assert s == s[..|s| - 1] + [s[|s| - 1]];
    }
  }

  lemma {:induction false} KeyFilterConcat(key: Observation -> int, a: seq<Observation>, b: seq<Observation>, v: int)
    ensures KeyFilter(key, a + b, v) == KeyFilter(key, a, v) + KeyFilter(key, b, v)
    decreases |a|
  {
    if a != [] {
      KeyFilterConcat(key, a[1..], b, v);
      ConsKeepsFilterLaw(key, a[0], a[1..] + b, a[1..], KeyFilter(key, b, v), v);
      assert [a[0]] + (a[1..] + b) == a + b;
      assert [a[0]] + a[1..] == a;
    } else {
      assert a + b == b;
    }
  }

  lemma {:induction false} KeyFilterAbsent(key: Observation -> int, s: seq<Observation>, v: int)
    requires forall k :: 0 <= k < |s| ==> key(s[k]) != v
    ensures KeyFilter(key, s, v) == []
    decreases |s|
  {
    if s != [] {
      KeyFilterAbsent(key, s[1..], v);
    }
  }

  lemma KeyFilterCons(key: Observation -> int, y: Observation, rest: seq<Observation>, v: int)
    ensures KeyFilter(key, [y] + rest, v) == (if key(y) == v then [y] else []) + KeyFilter(key, rest, v)
  {
    assert ([y] + rest)[0] == y;
    assert ([y] + rest)[1..] == rest;
  }

  lemma {:induction false} InsertKeyFilter(key: Observation -> int, x: Observation, s: seq<Observation>, v: int)
    requires SortedDesc(key, s)
    ensures KeyFilter(key, Insert(key, x, s), v)
         == KeyFilter(key, s, v) + (if key(x) == v then [x] else [])
    decreases |s|
  {
    if s == [] {
      KeyFilterCons(key, x, [], v);
    } else if key(s[0]) >= key(x) {
      assert SortedDesc(key, s[1..]);
      InsertKeyFilter(key, x, s[1..], v);
      InsertBehindHead(key, x, s, v);
    } else {
      InsertInFront(key, x, s, v);
    }
  }

  lemma InsertBehindHead(key: Observation -> int, x: Observation, s: seq<Observation>, v: int)
    requires s != [] && key(s[0]) >= key(x)
    requires KeyFilter(key, Insert(key, x, s[1..]), v)
          == KeyFilter(key, s[1..], v) + (if key(x) == v then [x] else [])
    ensures KeyFilter(key, Insert(key, x, s), v)
         == KeyFilter(key, s, v) + (if key(x) == v then [x] else [])
  {
    assert Insert(key, x, s) == [s[0]] + Insert(key, x, s[1..]);
    assert [s[0]] + s[1..] == s;
    ConsKeepsFilterLaw(key, s[0], Insert(key, x, s[1..]), s[1..], if key(x) == v then [x] else [], v);
  }

  lemma ConsKeepsFilterLaw(key: Observation -> int, y: Observation, r: seq<Observation>, s: seq<Observation>,
                           extra: seq<Observation>, v: int)
    requires KeyFilter(key, r, v) == KeyFilter(key, s, v) + extra
    ensures KeyFilter(key, [y] + r, v) == KeyFilter(key, [y] + s, v) + extra
  {
    var head := if key(y) == v then [y] else [];
    KeyFilterCons(key, y, r, v);
    KeyFilterCons(key, y, s, v);
    assert head + (KeyFilter(key, s, v) + extra) == (head + KeyFilter(key, s, v)) + extra;
  }

  lemma InsertInFront(key: Observation -> int, x: Observation, s: seq<Observation>, v: int)
    requires SortedDesc(key, s) && s != [] && key(s[0]) < key(x)
    ensures KeyFilter(key, Insert(key, x, s), v)
         == KeyFilter(key, s, v) + (if key(x) == v then [x] else [])
  {
    assert Insert(key, x, s) == [x] + s;
    KeyFilterCons(key, x, s, v);
    if key(x) == v {
      assert forall k :: 0 <= k < |s| ==> key(s[k]) <= key(s[0]);
      KeyFilterAbsent(key, s, v);
    }
  }

  /** The ranking is stable: for every key, the entries with that key keep their input order. */
  lemma {:induction false} SortDescStable(key: Observation -> int, s: seq<Observation>, v: int)
    ensures KeyFilter(key, SortDesc(key, s), v) == KeyFilter(key, s, v)
    decreases |s|
  {
    if s != [] {
      var init, last := s[..|s| - 1], s[|s| - 1];
      SortDescStable(key, init, v);
      SortDescSorted(key, init);
      InsertKeyFilter(key, last, SortDesc(key, init), v);
      KeyFilterConcat(key, init, [last], v);
      assert KeyFilter(key, [last], v) == if key(last) == v then [last] else [] by {
        assert [last][1..] == [];
      }
      assert init + [last] == s;
    }
  }

  lemma {:induction false} KeyFilterHead(key: Observation -> int, s: seq<Observation>)
    requires s != []
    ensures KeyFilter(key, s, key(s[0])) != []
    ensures KeyFilter(key, s, key(s[0]))[0] == s[0]
  {
  }

  lemma {:induction false} KeyFilterMember(key: Observation -> int, s: seq<Observation>, v: int)
    requires KeyFilter(key, s, v) != []
    ensures exists k :: 0 <= k < |s| && key(s[k]) == v
    decreases |s|
  {
    if key(s[0]) != v {
      KeyFilterMember(key, s[1..], v);
      var k :| 0 <= k < |s[1..]| && key(s[1..][k]) == v;
      assert key(s[k + 1]) == v;
    }
  }

  /** Two sorted lists with the same entries per key start with equal keys. */
  lemma HeadKeysAgree(key: Observation -> int, a: seq<Observation>, b: seq<Observation>)
    requires a != [] && b != []
    requires SortedDesc(key, a) && SortedDesc(key, b)
    requires KeyFilter(key, a, key(a[0])) == KeyFilter(key, b, key(a[0]))
    requires KeyFilter(key, a, key(b[0])) == KeyFilter(key, b, key(b[0]))
    ensures key(a[0]) == key(b[0])
  {
    KeyFilterHead(key, a);
    KeyFilterHead(key, b);
    KeyFilterMember(key, b, key(a[0]));
    KeyFilterMember(key, a, key(b[0]));
    var i :| 0 <= i < |b| && key(b[i]) == key(a[0]);
    var j :| 0 <= j < |a| && key(a[j]) == key(b[0]);
    assert key(b[0]) >= key(b[i]);
    assert key(a[0]) >= key(a[j]);
  }

  /** Dropping a shared first entry keeps the per-key lists equal. */
  lemma KeyFilterDropHead(key: Observation -> int, a: seq<Observation>, b: seq<Observation>, v: int)
    requires a != [] && b != [] && a[0] == b[0]
    requires KeyFilter(key, a, v) == KeyFilter(key, b, v)
    ensures KeyFilter(key, a[1..], v) == KeyFilter(key, b[1..], v)
  {
    var head := if key(a[0]) == v then [a[0]] else [];
    assert KeyFilter(key, a, v) == head + KeyFilter(key, a[1..], v);
    assert KeyFilter(key, b, v) == head + KeyFilter(key, b[1..], v);
    assert KeyFilter(key, a[1..], v) == KeyFilter(key, a, v)[|head|..];
    assert KeyFilter(key, b[1..], v) == KeyFilter(key, b, v)[|head|..];
  }

  /**
   * A stable sort by non-increasing key has only one possible outcome: any
   * ordering that is sorted and keeps every key's entries in input order is
   * `SortDesc`. So `SortDesc` stands for any stable implementation of the
   * comparator `(a, b) => key(b) - key(a)`.
   */
  lemma {:induction false} StableSortUnique(key: Observation -> int, a: seq<Observation>, b: seq<Observation>)
    requires SortedDesc(key, a) && SortedDesc(key, b)
    requires forall v :: KeyFilter(key, a, v) == KeyFilter(key, b, v)
    ensures a == b
    decreases |a|
  {
    if a == [] {
      if b != [] {
        KeyFilterHead(key, b);
      }
    } else if b == [] {
      KeyFilterHead(key, a);
    } else {
      var ka := key(a[0]);
      HeadKeysAgree(key, a, b);
      KeyFilterHead(key, a);
      KeyFilterHead(key, b);
      assert a[0] == KeyFilter(key, a, ka)[0] == KeyFilter(key, b, ka)[0] == b[0];
      forall v ensures KeyFilter(key, a[1..], v) == KeyFilter(key, b[1..], v) {
        KeyFilterDropHead(key, a, b, v);
      }
      assert SortedDesc(key, a[1..]) && SortedDesc(key, b[1..]);
      StableSortUnique(key, a[1..], b[1..]);
      assert a == [a[0]] + a[1..];
      assert b == [b[0]] + b[1..];
    }
  }

  lemma SplitAfterHead<T>(s: seq<T>, x: T, j: nat)
    requires 0 < j <= |s|
    ensures [s[0]] + (s[1..][..j - 1] + [x] + s[1..][j - 1..]) == s[..j] + [x] + s[j..]
  {
    assert s[..j] == [s[0]] + s[1..][..j - 1];
    assert s[j..] == s[1..][j - 1..];
  }

  /** Where `Insert` puts `x` when `j` splits `s` into keys at least `x`'s and keys below it. */
  lemma {:induction false} InsertAt(key: Observation -> int, x: Observation, s: seq<Observation>, j: nat)
    requires j <= |s|
    requires forall k :: 0 <= k < j ==> key(s[k]) >= key(x)
    requires j < |s| ==> key(s[j]) < key(x)
    ensures Insert(key, x, s) == s[..j] + [x] + s[j..]
    decreases j
  {
    if j > 0 {
      var tail := s[1..];
      assert forall k :: 0 <= k < j - 1 ==> tail[k] == s[k + 1];
      assert j - 1 < |tail| ==> tail[j - 1] == s[j];
      InsertAt(key, x, tail, j - 1);
      SplitAfterHead(s, x, j);
    } else {
      assert s[..0] + [x] + s[0..] == [x] + s;
    }
  }

  /**
   * One step of the insertion sort: shifts the entries of `a[..i]` that rank
   * below `a[i]` one place right, past the last one ranking at least as high,
   * and drops `a[i]` into the gap at `j`.
   */
  method InsertLast(a: array<Observation>, i: nat, key: Observation -> int) returns (j: nat)
    requires i < a.Length
    modifies a
    ensures j <= i
    ensures a[..i + 1] == old(a[..i])[..j] + [old(a[i])] + old(a[..i])[j..]
    ensures j > 0 ==> key(old(a[j - 1])) >= key(old(a[i]))
    ensures forall k :: j <= k < i ==> key(old(a[k])) < key(old(a[i]))
    ensures forall k :: i < k < a.Length ==> a[k] == old(a[k])
  {
    ghost var done := a[..i];
    var x := a[i];
    j := i;
    while j > 0 && key(a[j - 1]) < key(x)
      invariant 0 <= j <= i
      invariant forall k :: 0 <= k < j ==> a[k] == done[k]
      invariant forall k :: j < k <= i ==> a[k] == done[k - 1]
      invariant forall k :: i < k < a.Length ==> a[k] == old(a[k])
      invariant forall k :: j <= k < i ==> key(done[k]) < key(x)
    {
      a[j] := a[j - 1];
      j := j - 1;
    }
    a[j] := x;
    Placed(a[..], done, x, j);
  }

  /** The array after the shift and the final write holds `x` spliced into `done` at `j`. */
  lemma Placed<T>(arr: seq<T>, done: seq<T>, x: T, j: nat)
    requires j <= |done| < |arr|
    requires forall k :: 0 <= k < j ==> arr[k] == done[k]
    requires arr[j] == x
    requires forall k :: j < k <= |done| ==> arr[k] == done[k - 1]
    ensures arr[..|done| + 1] == done[..j] + [x] + done[j..]
  {
    var placed := done[..j] + [x] + done[j..];
    assert forall k :: 0 <= k <= |done| ==> arr[k] == placed[k];
  }

  /** In a ranked list, `x` goes right after the last entry whose key is at least its own. */
  lemma InsertionPoint(key: Observation -> int, x: Observation, s: seq<Observation>, j: nat)
    requires SortedDesc(key, s) && j <= |s|
    requires j > 0 ==> key(s[j - 1]) >= key(x)
    requires forall k :: j <= k < |s| ==> key(s[k]) < key(x)
    ensures Insert(key, x, s) == s[..j] + [x] + s[j..]
  {
    assert forall k :: 0 <= k < j ==> key(s[k]) >= key(s[j - 1]);
    InsertAt(key, x, s, j);
  }

  /** Splicing the next input entry in at its insertion point extends the ranking by one entry. */
  lemma SortStep(key: Observation -> int, orig: seq<Observation>, i: nat, j: nat)
    requires i < |orig| && j <= i
    requires j > 0 ==> key(SortDesc(key, orig[..i])[j - 1]) >= key(orig[i])
    requires forall k :: j <= k < i ==> key(SortDesc(key, orig[..i])[k]) < key(orig[i])
    ensures SortDesc(key, orig[..i])[..j] + [orig[i]] + SortDesc(key, orig[..i])[j..]
         == SortDesc(key, orig[..i + 1])
  {
    var done := SortDesc(key, orig[..i]);
    SortDescSorted(key, orig[..i]);
    InsertionPoint(key, orig[i], done, j);
    assert orig[..i + 1][..i] == orig[..i];
  }

  /** `data.sort(...)` on the copy: an insertion sort, stable, in place. */
  method SortInPlace(a: array<Observation>, key: Observation -> int)
    modifies a
    ensures a[..] == SortDesc(key, old(a[..]))
  {
    ghost var orig := a[..];
    var i := 0;
    while i < a.Length
      invariant 0 <= i <= a.Length
      invariant a[..i] == SortDesc(key, orig[..i])
      invariant forall k :: i <= k < a.Length ==> a[k] == orig[k]
    {
      ghost var done := a[..i];
      var j := InsertLast(a, i, key);
      SortStep(key, orig, i, j);
      i := i + 1;
    }
    assert a[..] == a[..a.Length];
    assert orig[..a.Length] == orig;
  }

  /** `Array.prototype.slice(0, end)`: the number of entries kept from a list of `len`. */
  function SliceEnd(len: nat, end: int): (n: nat)
    ensures n <= len
    ensures end >= 0 ==> n == if end < len then end else len
  {
    if end < 0 then (if len + end < 0 then 0 else len + end)
    else if end > len then len
    else end
  }

  /**
   * `SortAndSlice(result, slice = 100)`: sorts a copy of `result` (which is
   * left untouched) and keeps its first `slice` entries.
   */
  method SortAndSlice(result: array<Observation>, parse: string -> int, slice: int := 100)
    returns (data: seq<Observation>)
    ensures data == SortDesc(PriceKey(parse), result[..])[..SliceEnd(result.Length, slice)]
    ensures slice >= 0 ==> |data| == if slice < result.Length then slice else result.Length
    ensures SortedDesc(PriceKey(parse), data)
    ensures multiset(data) <= multiset(result[..])
  {
    var copy := new Observation[result.Length];
    forall k | 0 <= k < result.Length {
      copy[k] := result[k];
    }
    assert copy[..] == result[..];
    SortInPlace(copy, PriceKey(parse));
    var n := SliceEnd(copy.Length, slice);
    data := copy[..n];
    RankingPrefix(PriceKey(parse), result[..], n);
  }

  /** A prefix of the ranking is ranked and drawn from the input. */
  lemma RankingPrefix(key: Observation -> int, s: seq<Observation>, n: nat)
    requires n <= |s|
    ensures SortedDesc(key, SortDesc(key, s)[..n])
    ensures multiset(SortDesc(key, s)[..n]) <= multiset(s)
  {
    SortDescSorted(key, s);
    SortDescPermutes(key, s);
    SortedPrefix(key, SortDesc(key, s), n);
    MultisetPrefix(SortDesc(key, s), n);
  }

  /** A prefix of a ranked list is ranked. */
  lemma SortedPrefix(key: Observation -> int, s: seq<Observation>, n: nat)
    requires SortedDesc(key, s) && n <= |s|
    ensures SortedDesc(key, s[..n])
  {
    forall i, j | 0 <= i < j < n
      ensures key(s[..n][i]) >= key(s[..n][j])
    {
      assert s[..n][i] == s[i] && s[..n][j] == s[j];
    }
  }

  /** A prefix holds no more of any element than the whole. */
  lemma MultisetPrefix<T>(s: seq<T>, n: nat)
    requires n <= |s|
    ensures multiset(s[..n]) <= multiset(s)
  {
    assert s == s[..n] + s[n..];
    assert multiset(s) == multiset(s[..n]) + multiset(s[n..]);
  }
}
