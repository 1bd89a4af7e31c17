/** From fetched rows to samples, and from samples to subgroups. */
module Samples {
  import opened Common
  import opened DetectorTypes
  import opened Sorting

  // ----- rows

  datatype Cell = NoCell | NotNumeric | NotFinite | Number(value: real)

  datatype TimeCell = NoTime | BadTime | At(ts: int)

  datatype Row = Row(cell: Cell, time: TimeCell, subgroup: Option<string>)

  /** A row is usable with a finite number in the value column and a readable timestamp. */
  function ToSample(row: Row, withSubgroup: bool): Option<Sample> {
    if row.cell.Number? && row.time.At? then
      Some(Sample(row.time.ts, row.cell.value,
                  if withSubgroup && row.subgroup.Some? then row.subgroup.value else ""))
    else None
  }

  function Usable(rows: seq<Row>, withSubgroup: bool): (samples: seq<Sample>)
    ensures |samples| <= |rows|
  {
    if rows == [] then []
    else
      var most := Usable(rows[..|rows| - 1], withSubgroup);
      var last := ToSample(rows[|rows| - 1], withSubgroup);
      if last.Some? then most + [last.value] else most
  }

  /** The part of fetchSamples that follows the query: keep the usable rows, then reverse them in place. */
  method DecodeRows(rows: seq<Row>, withSubgroup: bool) returns (samples: seq<Sample>)
    ensures samples == Reverse(Usable(rows, withSubgroup))
  {
    var buffer := new Sample[|rows|];
    var count := 0;
    for n := 0 to |rows|
      invariant count <= n && buffer[..count] == Usable(rows[..n], withSubgroup)
    {
      assert rows[..n + 1][..n] == rows[..n];
      var sample := ToSample(rows[n], withSubgroup);
      if sample.Some? {
        buffer[count] := sample.value;
        count := count + 1;
        assert buffer[..count] == buffer[..count - 1] + [sample.value];
      }
    }
    assert rows[..|rows|] == rows;
    if count == 0 {
      return [];
    }
    ReversePrefix(buffer, count);
    return buffer[..count];
  }

  method ReversePrefix<T>(a: array<T>, n: nat)
    requires n <= a.Length
    modifies a
    ensures a[..n] == Reverse(old(a[..n]))
    ensures a[n..] == old(a[n..])
  {
    var i, j := 0, n - 1;
    while i < j
      invariant 0 <= i <= n && i + j == n - 1
      invariant forall k :: 0 <= k < i ==> a[k] == old(a[n - 1 - k]) && a[n - 1 - k] == old(a[k])
      invariant forall k :: i <= k <= j ==> a[k] == old(a[k])
      invariant forall k :: n <= k < a.Length ==> a[k] == old(a[k])
    {
      a[i], a[j] := a[j], a[i];
      i, j := i + 1, j - 1;
    }
    forall k | 0 <= k < n ensures a[k] == old(a[n - 1 - k]) {
      if k > j && k > i {
        assert a[n - 1 - (n - 1 - k)] == old(a[n - 1 - k]);
      }
    }
  }

  predicate NewestFirst(rows: seq<Row>) {
    forall i, j :: 0 <= i < j < |rows| && rows[i].time.At? && rows[j].time.At? ==> rows[i].time.ts >= rows[j].time.ts
  }

  /** The usable rows are kept, each as its sample, and nothing else. */
  lemma {:induction false} UsableExactly(rows: seq<Row>, withSubgroup: bool, s: Sample)
    ensures s in Usable(rows, withSubgroup) <==> exists r :: r in rows && ToSample(r, withSubgroup) == Some(s)
  {
    if rows != [] {
      var most, last := rows[..|rows| - 1], rows[|rows| - 1];
      UsableExactly(most, withSubgroup, s);
      assert rows == most + [last];
    }
  }

  /** Each row on its own: it is usable with a finite number and a readable time, and the subgroup is kept when it is
      asked for and there. */
  lemma UsableRow(row: Row, withSubgroup: bool)
    ensures Usable([row], withSubgroup)
         == if row.cell.Number? && row.time.At?
            then [Sample(row.time.ts, row.cell.value, if withSubgroup && row.subgroup.Some? then row.subgroup.value else "")]
            else []
  {
    assert [row][..0] == [];
  }

  /** And the usable ones of a list are those of its parts, one after the other. */
  lemma {:induction false} UsableInParts(a: seq<Row>, b: seq<Row>, withSubgroup: bool)
    ensures Usable(a + b, withSubgroup) == Usable(a, withSubgroup) + Usable(b, withSubgroup)
    decreases |b|
  {
    hide ToSample;
    if b == [] {
      assert a + b == a;
    } else {
      var last := |b| - 1;
      assert (a + b)[..|a| + last] == a + b[..last];
      UsableInParts(a, b[..last], withSubgroup);
    }
  }

  predicate Ascending(samples: seq<Sample>) {
    forall i, j :: 0 <= i < j < |samples| ==> samples[i].ts <= samples[j].ts
  }

  predicate Descending(samples: seq<Sample>) {
    forall i, j :: 0 <= i < j < |samples| ==> samples[i].ts >= samples[j].ts
  }

  lemma AppendInOrder(s: seq<Sample>, x: Sample)
    ensures Descending(s) && (forall y :: y in s ==> y.ts >= x.ts) ==> Descending(s + [x])
    ensures Ascending(s) && (forall y :: y in s ==> y.ts <= x.ts) ==> Ascending(s + [x])
  {
    assert forall i :: 0 <= i < |s| ==> s[i] in s;
  }

  /** Usable rows in the order of their times stay in that order. */
  lemma {:induction false} UsableInOrder(rows: seq<Row>, withSubgroup: bool)
    requires NewestFirst(rows)
    ensures Descending(Usable(rows, withSubgroup))
  {
    if rows != [] {
      var most, last := rows[..|rows| - 1], rows[|rows| - 1];
      UsableInOrder(most, withSubgroup);
      if ToSample(last, withSubgroup).Some? {
        forall s | s in Usable(most, withSubgroup) ensures s.ts >= last.time.ts {
          UsableExactly(most, withSubgroup, s);
          var r :| r in most && ToSample(r, withSubgroup) == Some(s);
          var i :| 0 <= i < |most| && most[i] == r;
          assert rows[i] == r;
        }
        AppendInOrder(Usable(most, withSubgroup), ToSample(last, withSubgroup).value);
      }
    }
  }

  /** Rows that come newest first become samples oldest first, none of the usable ones lost. */
  lemma DecodedOldestFirst(rows: seq<Row>, withSubgroup: bool)
    requires NewestFirst(rows)
    ensures Ascending(Reverse(Usable(rows, withSubgroup)))
    ensures forall s :: s in Reverse(Usable(rows, withSubgroup))
                   <==> exists r :: r in rows && ToSample(r, withSubgroup) == Some(s)
  {
    UsableInOrder(rows, withSubgroup);
    var usable := Usable(rows, withSubgroup);
    ReverseKeepsElements(usable);
    forall s ensures s in Reverse(usable) <==> exists r :: r in rows && ToSample(r, withSubgroup) == Some(s) {
      assert s in multiset(Reverse(usable)) <==> s in multiset(usable);
      UsableExactly(rows, withSubgroup, s);
    }
  }

  // ----- a closed time range

  predicate InRange(sample: Sample, start: Option<int>, end: Option<int>) {
    (start.Some? ==> start.value <= sample.ts) && (end.Some? ==> sample.ts <= end.value)
  }

  function Within(samples: seq<Sample>, start: Option<int>, end: Option<int>): (kept: seq<Sample>)
    ensures forall s :: s in kept <==> s in samples && InRange(s, start, end)
  {
    if samples == [] then []
    else
      var most, last := samples[..|samples| - 1], samples[|samples| - 1];
      assert samples == most + [last];
      Within(most, start, end) + (if InRange(last, start, end) then [last] else [])
  }

  method FilterSamplesByRange(samples: seq<Sample>, start: Option<int>, end: Option<int>) returns (filtered: seq<Sample>)
    ensures filtered == Within(samples, start, end)
  {
    if start.None? && end.None? {
      AllWithin(samples);
      return samples;
    }
    filtered := [];
    for n := 0 to |samples|
      invariant filtered == Within(samples[..n], start, end)
    {
      assert samples[..n + 1][..n] == samples[..n];
      var sample := samples[n];
      if start.Some? && sample.ts < start.value {
        continue;
      }
      if end.Some? && sample.ts > end.value {
        continue;
      }
      filtered := filtered + [sample];
    }
    assert samples[..|samples|] == samples;
  }

  lemma {:induction false} AllWithin(samples: seq<Sample>)
    ensures Within(samples, None, None) == samples
  {
    if samples != [] {
      var most, last := samples[..|samples| - 1], samples[|samples| - 1];
      AllWithin(most);
      assert InRange(last, None, None);
      assert Within(samples, None, None) == Within(most, None, None) + [last];
      assert samples == most + [last];
    }
  }

  /** Filtering keeps each sample of the range as often as it was there. */
  lemma {:induction false} WithinExactly(samples: seq<Sample>, start: Option<int>, end: Option<int>, s: Sample)
    ensures multiset(Within(samples, start, end))[s]
         == if (start.Some? && s.ts < start.value) || (end.Some? && s.ts > end.value) then 0 else multiset(samples)[s]
  {
    if samples != [] {
      var most, last := samples[..|samples| - 1], samples[|samples| - 1];
      WithinExactly(most, start, end, s);
      assert samples == most + [last];
      assert multiset(samples) == multiset(most) + multiset{last};
      assert Within(samples, start, end) == Within(most, start, end) + if InRange(last, start, end) then [last] else [];
    }
  }

  /** Filtering keeps the order of the samples. */
  lemma {:induction false} WithinInParts(a: seq<Sample>, b: seq<Sample>, start: Option<int>, end: Option<int>)
    ensures Within(a + b, start, end) == Within(a, start, end) + Within(b, start, end)
    decreases |b|
  {
    if b == [] {
      assert a + b == a;
    } else {
      hide *;
      var most, last := b[..|b| - 1], b[|b| - 1];
      WithinInParts(a, most, start, end);
      SplitLast(a, b);
      WithinOneMore(a + most, last, start, end);
      WithinOneMore(most, last, start, end);
      var own := if InRange(last, start, end) then [last] else [];
      Regroup(Within(a, start, end), Within(most, start, end), own);
    }
  }

  lemma WithinOneMore(samples: seq<Sample>, s: Sample, start: Option<int>, end: Option<int>)
    ensures Within(samples + [s], start, end) == Within(samples, start, end) + if InRange(s, start, end) then [s] else []
  {
    assert (samples + [s])[..|samples|] == samples;
  }

  /** So it keeps the order of time. */
  lemma {:induction false} WithinKeepsOrder(samples: seq<Sample>, start: Option<int>, end: Option<int>)
    requires Ascending(samples)
    ensures Ascending(Within(samples, start, end))
  {
    if samples != [] {
      var most, last := samples[..|samples| - 1], samples[|samples| - 1];
      WithinKeepsOrder(most, start, end);
      forall x | x in Within(most, start, end) ensures x.ts <= last.ts {
        assert x in most;
      }
      AppendInOrder(Within(most, start, end), last);
    }
  }

  // ----- consecutive subgroups

  function Flatten<T>(groups: seq<seq<T>>): seq<T> {
    if groups == [] then [] else Flatten(groups[..|groups| - 1]) + groups[|groups| - 1]
  }

  /** Blocks of the given size that put end to end are the samples but for fewer than size of the newest. */
  method GroupConsecutive(samples: seq<Sample>, size: int) returns (groups: seq<seq<Sample>>)
    ensures size <= 0 ==> groups == []
    ensures size > 0 ==>
              && (forall g :: g in groups ==> |g| == size)
              && Flatten(groups) <= samples
              && |samples| - |Flatten(groups)| < size
  {
    if size <= 0 {
      return [];
    }
    groups := [];
    var i := 0;
    while i + size <= |samples|
      invariant 0 <= i <= |samples|
      invariant forall g :: g in groups ==> |g| == size
      invariant Flatten(groups) == samples[..i]
    {
      var group := samples[i..i + size];
      assert (groups + [group])[..|groups|] == groups;
      assert samples[..i + size] == samples[..i] + group;
      groups := groups + [group];
      i := i + size;
    }
  }

  lemma {:induction false} FlattenedLength<T>(groups: seq<seq<T>>, size: nat)
    requires forall g :: g in groups ==> |g| == size
    ensures |Flatten(groups)| == |groups| * size
  {
    if groups != [] {
      var most, last := groups[..|groups| - 1], groups[|groups| - 1];
      FlattenedLength(most, size);
      assert Flatten(groups) == Flatten(most) + last;
      assert last in groups;
      OneMoreBlock(|most|, size);
    }
  }

  lemma OneMoreBlock(n: nat, size: nat)
    ensures n * size + size == (n + 1) * size
  {
  }

  /** The contract of GroupConsecutive leaves one possible result, with n / size blocks. */
  lemma {:induction false} ConsecutiveGroupsUnique(samples: seq<Sample>, size: nat, g: seq<seq<Sample>>, h: seq<seq<Sample>>)
    requires size > 0
    requires forall x :: x in g ==> |x| == size
    requires forall x :: x in h ==> |x| == size
    requires Flatten(g) <= samples && |samples| - |Flatten(g)| < size
    requires Flatten(h) <= samples && |samples| - |Flatten(h)| < size
    ensures g == h && |g| == |samples| / size
  {
    FlattenedLength(g, size);
    FlattenedLength(h, size);
    QuotientOf(|samples|, |g|, size);
    QuotientOf(|samples|, |h|, size);
    SameBlocks(g, h, size);
  }

  lemma QuotientOf(n: nat, q: nat, size: nat)
    requires size > 0 && q * size <= n && n - q * size < size
    ensures n / size == q
  {
    var k := n / size;
    assert k * size <= n < k * size + size;
    if k < q {
      AtLeastOnce(q - k, size);
    } else if k > q {
      AtLeastOnce(k - q, size);
    }
  }

  lemma AtLeastOnce(d: nat, size: nat)
    requires d >= 1
    ensures d * size >= size
  {
  }

  lemma {:induction false} SameBlocks(g: seq<seq<Sample>>, h: seq<seq<Sample>>, size: nat)
    requires |g| == |h| && Flatten(g) == Flatten(h)
    requires forall x :: x in g ==> |x| == size
    requires forall x :: x in h ==> |x| == size
    ensures g == h
  {
    if g != [] {
      var n := |g| - 1;
      var front, back := Flatten(g), Flatten(g[..n]);
      assert g[n] in g && h[n] in h;
      assert |Flatten(g[..n])| == |front| - size == |Flatten(h[..n])|;
      assert Flatten(g[..n]) == front[..|front| - size] == Flatten(h[..n]);
      assert g[n] == front[|front| - size..] == h[n];
      SameBlocks(g[..n], h[..n], size);
    }
  }

  // ----- subgroups by key

  predicate StringLeq(s: string, t: string) {
    s == [] || (t != [] && (s[0] < t[0] || (s[0] == t[0] && StringLeq(s[1..], t[1..]))))
  }

  lemma {:induction false} StringLeqTotal(s: string, t: string)
    ensures StringLeq(s, t) || StringLeq(t, s)
    ensures StringLeq(s, t) && StringLeq(t, s) ==> s == t
    decreases |s|
  {
    if s != [] && t != [] {
      StringLeqTotal(s[1..], t[1..]);
      assert s == [s[0]] + s[1..] && t == [t[0]] + t[1..];
    }
  }

  lemma {:induction false} StringLeqTransitive(s: string, t: string, u: string)
    requires StringLeq(s, t) && StringLeq(t, u)
    ensures StringLeq(s, u)
    decreases |s|
  {
    if s != [] && s[0] == t[0] == u[0] {
      StringLeqTransitive(s[1..], t[1..], u[1..]);
    }
  }

  predicate KeyLeq(s: string, t: string) {
    StringLeq(s, t)
  }

  /** Up to the k-th character they are the same, and there s is below t. */
  predicate BelowAt(s: string, t: string, k: nat) {
    k < |s| && k < |t| && s[..k] == t[..k] && s[k] < t[k]
  }

  /** The order of keys is that of the first character in which they differ, and a beginning comes before the
      whole. */
  lemma {:induction false} KeyOrderExactly(s: string, t: string)
    ensures KeyLeq(s, t) <==> s <= t || exists k: nat :: BelowAt(s, t, k)
  {
    if s != [] && t != [] {
      if s[0] == t[0] {
        KeyOrderExactly(s[1..], t[1..]);
        SameFirstCharacter(s, t);
      } else if s[0] < t[0] {
        assert BelowAt(s, t, 0);
      }
    }
  }

  lemma SameFirstCharacter(s: string, t: string)
    requires s != [] && t != [] && s[0] == t[0]
    ensures s <= t <==> s[1..] <= t[1..]
    ensures (exists k: nat :: BelowAt(s, t, k)) <==> exists k: nat :: BelowAt(s[1..], t[1..], k)
  {
    var p, q := s[1..], t[1..];
    assert s == [s[0]] + p && t == [t[0]] + q;
    if k: nat :| BelowAt(p, q, k) {
      assert s[..k + 1] == [s[0]] + p[..k] && t[..k + 1] == [t[0]] + q[..k];
      assert BelowAt(s, t, k + 1);
    }
    if k: nat :| BelowAt(s, t, k) {
      assert p[..k - 1] == s[..k][1..] && q[..k - 1] == t[..k][1..];
      assert BelowAt(p, q, k - 1);
    }
  }

  lemma KeyLeqIsTotalOrder()
    ensures TotalOrder(KeyLeq)
  {
    forall s, t ensures (KeyLeq(s, t) || KeyLeq(t, s)) && (KeyLeq(s, t) && KeyLeq(t, s) ==> s == t) {
      StringLeqTotal(s, t);
    }
    forall s, t, u | KeyLeq(s, t) && KeyLeq(t, u) ensures KeyLeq(s, u) {
      StringLeqTransitive(s, t, u);
    }
  }

  /** The samples of a subgroup, in their order. */
  function WithKey(samples: seq<Sample>, key: string): seq<Sample> {
    if samples == [] then []
    else
      var most, last := samples[..|samples| - 1], samples[|samples| - 1];
      WithKey(most, key) + (if last.subgroup == key then [last] else [])
  }

  lemma {:induction false} WithKeyExactly(samples: seq<Sample>, key: string, s: Sample)
    ensures multiset(WithKey(samples, key))[s] == if s.subgroup == key then multiset(samples)[s] else 0
  {
    if samples != [] {
      var most, last := samples[..|samples| - 1], samples[|samples| - 1];
      WithKeyExactly(most, key, s);
      assert samples == most + [last];
    }
  }

  lemma {:induction false} WithKeyInParts(a: seq<Sample>, b: seq<Sample>, key: string)
    ensures WithKey(a + b, key) == WithKey(a, key) + WithKey(b, key)
    decreases |b|
  {
    if b == [] {
      assert a + b == a;
    } else {
      var last := |b| - 1;
      assert (a + b)[..|a| + last] == a + b[..last];
      WithKeyInParts(a, b[..last], key);
    }
  }

  /** The subgroups that occur, other than the empty one, in the order in which they first do. */
  function Keys(samples: seq<Sample>): seq<string> {
    if samples == [] then []
    else
      var keys, last := Keys(samples[..|samples| - 1]), samples[|samples| - 1];
      if last.subgroup == "" || last.subgroup in keys then keys else keys + [last.subgroup]
  }

  lemma {:induction false} KeysExactly(samples: seq<Sample>)
    ensures forall k :: k in Keys(samples) <==> k != "" && exists s :: s in samples && s.subgroup == k
    ensures forall i, j :: 0 <= i < j < |Keys(samples)| ==> Keys(samples)[i] != Keys(samples)[j]
  {
    if samples != [] {
      var most, last := samples[..|samples| - 1], samples[|samples| - 1];
      KeysExactly(most);
      assert samples == most + [last];
    }
  }

  function GroupsFor(keys: seq<string>, samples: seq<Sample>, size: nat): seq<seq<Sample>> {
    if keys == [] then []
    else
      var rest := GroupsFor(keys[..|keys| - 1], samples, size);
      var members := WithKey(samples, keys[|keys| - 1]);
      if |members| < size then rest else rest + [members[..size]]
  }

  /** The first size samples of each large enough subgroup, subgroups in the order of their keys. */
  function GroupsByKey(samples: seq<Sample>, size: nat): seq<seq<Sample>> {
    GroupsFor(Sort(Keys(samples), KeyLeq), samples, size)
  }

  method GroupBySubgroup(samples: seq<Sample>, size: int) returns (groups: seq<seq<Sample>>)
    requires size >= 0
    ensures groups == GroupsByKey(samples, size)
  {
    var grouped, order := CollectByKey(samples);
    var keys := new string[|order|](i requires 0 <= i < |order| => order[i]);
    assert keys[..] == order;
    SortInPlace(keys, KeyLeq);
    groups := PickGroups(grouped, keys[..], samples, size);
  }

  method PickGroups(grouped: map<string, seq<Sample>>, keys: seq<string>, ghost samples: seq<Sample>, size: nat)
    returns (groups: seq<seq<Sample>>)
    requires multiset(keys) == multiset(Keys(samples))
    requires Collected(grouped, Keys(samples), samples)
    ensures groups == GroupsFor(keys, samples, size)
  {
    groups := [];
    for n := 0 to |keys|
      invariant groups == GroupsFor(keys[..n], samples, size)
    {
      assert keys[..n + 1][..n] == keys[..n];
      assert keys[n] in multiset(keys);
      assert keys[n] in Keys(samples);
      var values := grouped[keys[n]];
      if |values| < size {
        continue;
      }
      groups := groups + [values[..size]];
    }
    assert keys[..|keys|] == keys;
  }

  /** The map holds, under each of the keys and no other, the samples of that subgroup. */
  ghost predicate Collected(grouped: map<string, seq<Sample>>, keys: seq<string>, samples: seq<Sample>) {
    && (forall k :: k in grouped <==> k in keys)
    && (forall k :: k in grouped ==> grouped[k] == WithKey(samples, k))
  }

  method CollectByKey(samples: seq<Sample>) returns (grouped: map<string, seq<Sample>>, order: seq<string>)
    ensures order == Keys(samples) && Collected(grouped, order, samples)
  {
    grouped, order := map[], [];
    for n := 0 to |samples|
      invariant order == Keys(samples[..n])
      invariant Collected(grouped, order, samples[..n])
    {
      var sample := samples[n];
      assert samples[..n + 1][..n] == samples[..n];
      KeysExactly(samples[..n]);
      if sample.subgroup == "" {
        continue;
      }
      if sample.subgroup !in grouped {
        order := order + [sample.subgroup];
        NoneWithKey(samples[..n], sample.subgroup);
        grouped := grouped[sample.subgroup := []];
      }
      grouped := grouped[sample.subgroup := grouped[sample.subgroup] + [sample]];
    }
    assert samples[..|samples|] == samples;
  }

  lemma {:induction false} NoneWithKey(samples: seq<Sample>, key: string)
    requires key != "" && key !in Keys(samples)
    ensures WithKey(samples, key) == []
  {
    if samples != [] {
      var most := samples[..|samples| - 1];
      assert key !in Keys(most);
      NoneWithKey(most, key);
    }
  }

  lemma {:induction false} GroupsForExactly(keys: seq<string>, samples: seq<Sample>, size: nat, g: seq<Sample>)
    ensures g in GroupsFor(keys, samples, size) <==> exists k :: k in keys && IsGroup(samples, k, size, g)
    ensures forall h :: h in GroupsFor(keys, samples, size) ==> |h| == size
  {
    if keys != [] {
      var most, last := keys[..|keys| - 1], keys[|keys| - 1];
      GroupsForExactly(most, samples, size, g);
      assert keys == most + [last];
      assert g in GroupsFor(keys, samples, size) <==> g in GroupsFor(most, samples, size) || IsGroup(samples, last, size, g);
    }
  }

  /** g is the first size samples of a subgroup that has that many. */
  predicate IsGroup(samples: seq<Sample>, key: string, size: nat, g: seq<Sample>) {
    |WithKey(samples, key)| >= size && g == WithKey(samples, key)[..size]
  }

  /** Grouping by key is exact: a list of samples is one of the groups if and only if it is the first size
      samples of a named subgroup that has that many. */
  lemma GroupsByKeyExactly(samples: seq<Sample>, size: nat, g: seq<Sample>)
    ensures g in GroupsByKey(samples, size)
       <==> exists k :: k != "" && (exists s :: s in samples && s.subgroup == k) && IsGroup(samples, k, size, g)
    ensures forall h :: h in GroupsByKey(samples, size) ==> |h| == size
  {
    var order := Keys(samples);
    var keys := Sort(order, KeyLeq);
    GroupsForExactly(keys, samples, size, g);
    KeysExactly(samples);
    forall k ensures k in keys <==> k in order {
      assert k in multiset(keys) <==> k in multiset(order);
    }
  }

  predicate Before(s: string, t: string) {
    KeyLeq(s, t) && s != t
  }

  predicate KeysInOrder(keys: seq<string>) {
    forall i, j :: 0 <= i < j < |keys| ==> Before(keys[i], keys[j])
  }

  /** The sorted list of keys has each key strictly below the later ones. */
  lemma KeysStrictlyIncrease(samples: seq<Sample>)
    ensures KeysInOrder(Sort(Keys(samples), KeyLeq))
  {
    var order := Keys(samples);
    var keys := Sort(order, KeyLeq);
    KeyLeqIsTotalOrder();
    SortIsSorted(order, KeyLeq);
    KeysExactly(samples);
    forall i, j | 0 <= i < j < |keys| ensures keys[i] != keys[j] {
      DistinctOnce(order, keys[i]);
      RepeatedTwice(keys, i, j);
    }
  }

  /** The groups themselves: every one has its own key, strictly below the keys of the groups after it. With
      GroupsByKeyExactly this leaves one possible result. */
  lemma GroupsInKeyOrder(samples: seq<Sample>, size: nat)
    requires size > 0
    ensures GroupsInOrder(GroupsByKey(samples, size))
  {
    hide Before;
    var keys := Sort(Keys(samples), KeyLeq);
    KeysStrictlyIncrease(samples);
    GroupsForInOrder(keys, samples, size);
    assert GroupsByKey(samples, size) == GroupsFor(keys, samples, size);
  }

  predicate GroupsInOrder(groups: seq<seq<Sample>>) {
    forall i, j :: 0 <= i < j < |groups| ==> Before(KeyOfGroup(groups[i]), KeyOfGroup(groups[j]))
  }

  function KeyOfGroup(g: seq<Sample>): string {
    if g == [] then "" else g[0].subgroup
  }

  lemma {:induction false} GroupsForInOrder(keys: seq<string>, samples: seq<Sample>, size: nat)
    requires size > 0 && KeysInOrder(keys)
    ensures var groups := GroupsFor(keys, samples, size);
            && (forall g :: g in groups ==> KeyOfGroup(g) in keys)
            && GroupsInOrder(groups)
  {
    hide Before;
    if keys != [] {
      var most, last := keys[..|keys| - 1], keys[|keys| - 1];
      var rest, members := GroupsFor(most, samples, size), WithKey(samples, last);
      assert KeysInOrder(most) && forall i :: 0 <= i < |most| ==> Before(keys[i], last);
      GroupsForInOrder(most, samples, size);
      if |members| >= size {
        MembersHaveKey(samples, last, members[0]);
        assert KeyOfGroup(members[..size]) == last;
        OneMoreGroup(rest, members[..size], most, last);
        assert GroupsFor(keys, samples, size) == rest + [members[..size]];
      }
    }
  }

  lemma OneMoreGroup(groups: seq<seq<Sample>>, g: seq<Sample>, keys: seq<string>, last: string)
    requires GroupsInOrder(groups) && KeyOfGroup(g) == last
    requires forall h :: h in groups ==> KeyOfGroup(h) in keys
    requires forall i :: 0 <= i < |keys| ==> Before(keys[i], last)
    ensures GroupsInOrder(groups + [g])
  {
    hide Before, KeyOfGroup;
  }

  lemma MembersHaveKey(samples: seq<Sample>, key: string, s: Sample)
    requires s in WithKey(samples, key)
    ensures s.subgroup == key
  {
    WithKeyExactly(samples, key, s);
    assert s in multiset(WithKey(samples, key));
  }

  lemma RepeatedTwice<T>(s: seq<T>, i: nat, j: nat)
    requires i < j < |s|
    ensures s[i] == s[j] ==> multiset(s)[s[i]] >= 2
  {
    assert s == s[..i] + [s[i]] + s[i + 1..j] + [s[j]] + s[j + 1..];
  }

  lemma {:induction false} DistinctOnce<T>(s: seq<T>, x: T)
    requires forall i, j :: 0 <= i < j < |s| ==> s[i] != s[j]
    ensures multiset(s)[x] <= 1
  {
    if s != [] {
      var most, last := s[..|s| - 1], s[|s| - 1];
      DistinctOnce(most, x);
      assert s == most + [last];
      assert x in most <==> x in multiset(most);
    }
  }
}
