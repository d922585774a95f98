/**
 * The backend helpers: the contact-number cleaner, the grouping of
 * validation errors into summaries, and the seeding of the catalog tables
 * from the configuration.
 */
module Utils {
  import opened Text
  import opened Seqs
  import opened Tables

  // ---------------------------------------------------------------------------
  // clean_contact_number

  /** `contact_number.strip().replace(" ", "").replace("-", "")`. */
  function CleanContactNumber(s: string): (r: string)
    ensures ' ' !in r && '-' !in r
    ensures |r| <= |s|
  {
    RemoveAll(RemoveAll(PyStrip(s), ' '), '-')
  }

  /** The only whitespace character of `s`, if any, is the plain space. */
  predicate OnlySpaceWhitespace(s: string) {
    forall i :: 0 <= i < |s| && IsPyWhitespace(s[i]) ==> s[i] == ' '
  }

  /** When the only whitespace is ' ', stripping adds nothing to the removal
    * of spaces: the result is the input without any space or hyphen. */
  lemma CleanIsRemoval(s: string)
    requires OnlySpaceWhitespace(s)
    ensures CleanContactNumber(s) == RemoveAll(RemoveAll(s, ' '), '-')
  {
    TrimThenRemove(s, IsPyWhitespace, ' ');
  }

  /** Every character of the cleaned number occurs in the input. */
  lemma CleanKeepsCharacters(s: string, x: char)
    requires x in CleanContactNumber(s)
    ensures x in s
  {
    var u := PyStrip(s);
    assert x in RemoveAll(u, ' ');
    var head, tail := TrimParts(s, IsPyWhitespace);
    assert x in head + u + tail;
  }

  /** Cleaning is idempotent on inputs whose only whitespace is ' '. */
  lemma CleanIdempotent(s: string)
    requires OnlySpaceWhitespace(s)
    ensures CleanContactNumber(CleanContactNumber(s)) == CleanContactNumber(s)
  {
    var r := CleanContactNumber(s);
    forall i | 0 <= i < |r| ensures !IsPyWhitespace(r[i]) {
      CleanKeepsCharacters(s, r[i]);
      var k :| 0 <= k < |s| && s[k] == r[i];
    }
    TrimNoop(r, IsPyWhitespace);
    RemoveAllAbsent(r, ' ');
    RemoveAllAbsent(r, '-');
  }

  // ---------------------------------------------------------------------------
  // summarize_errors

  /** One collected error: the record index, `loc[0]`, `msg` and `type`. */
  datatype ErrorEntry = ErrorEntry(row: int, field: string, error: string, kind: string)

  datatype GroupKey = GroupKey(field: string, error: string)

  /** One element of the returned list. */
  datatype Summary = Summary(field: string, error: string, count: nat, sampleRows: seq<int>)

  const DefaultMaxSamples := 5

  function KeyOf(e: ErrorEntry): GroupKey {
    GroupKey(e.field, e.error)
  }

  /** The (key, row) pair of each error, in input order. */
  function KeyRows(errs: seq<ErrorEntry>): (xs: seq<(GroupKey, int)>)
    ensures |xs| == |errs| && forall i :: 0 <= i < |errs| ==> xs[i] == (KeyOf(errs[i]), errs[i].row)
  {
    seq(|errs|, i requires 0 <= i < |errs| => (KeyOf(errs[i]), errs[i].row))
  }

  // The grouping is defined on (key, row) pairs with a generic key type.

  /** The keys of `grouped` after the first `n` pairs, in insertion order:
    * each key at its first occurrence. */
  function GroupKeys<K(==)>(xs: seq<(K, int)>, n: nat): seq<K>
    requires n <= |xs|
  {
    if n == 0 then []
    else
      var ks := GroupKeys(xs, n - 1);
      if xs[n - 1].0 in ks then ks else ks + [xs[n - 1].0]
  }

  /** How many of the first `n` pairs have key `k`. */
  function CountOf<K(==)>(xs: seq<(K, int)>, n: nat, k: K): nat
    requires n <= |xs|
  {
    if n == 0 then 0
    else CountOf(xs, n - 1, k) + (if xs[n - 1].0 == k then 1 else 0)
  }

  /** The rows of the first `n` pairs with key `k`, in input order. */
  function RowsOf<K(==)>(xs: seq<(K, int)>, n: nat, k: K): seq<int>
    requires n <= |xs|
  {
    if n == 0 then []
    else RowsOf(xs, n - 1, k) + (if xs[n - 1].0 == k then [xs[n - 1].1] else [])
  }

  /** The first `n` elements, or all of them when there are fewer. */
  function Take(rows: seq<int>, n: int): (r: seq<int>)
    ensures |r| == if n <= 0 then 0 else if |rows| <= n then |rows| else n
    ensures r == rows[..|r|]
  {
    if n <= 0 then [] else if |rows| <= n then rows else rows[..n]
  }

  /** The result of `summarize_errors(errs, maxSamples)`. */
  function Summarize(errs: seq<ErrorEntry>, maxSamples: int): (r: seq<Summary>)
    ensures |r| == |GroupKeys(KeyRows(errs), |errs|)|
  {
    var xs := KeyRows(errs);
    var ks := GroupKeys(xs, |xs|);
    seq(|ks|, i requires 0 <= i < |ks| =>
      Summary(ks[i].field, ks[i].error, CountOf(xs, |xs|, ks[i]), Take(RowsOf(xs, |xs|, ks[i]), maxSamples)))
  }

  /** A key is a group iff its count is positive. */
  lemma {:induction false} GroupKeysSpec<K>(xs: seq<(K, int)>, n: nat, k: K)
    requires n <= |xs|
    ensures k in GroupKeys(xs, n) <==> CountOf(xs, n, k) > 0
  {
    if n > 0 {
      GroupKeysSpec(xs, n - 1, k);
    }
  }

  /** A positive count means a pair with that key exists, and conversely. */
  lemma {:induction false} CountOfSpec<K>(xs: seq<(K, int)>, n: nat, k: K)
    requires n <= |xs|
    ensures CountOf(xs, n, k) > 0 <==> exists i | 0 <= i < n :: xs[i].0 == k
  {
    if n > 0 {
      CountOfSpec(xs, n - 1, k);
    }
  }

  /** No two groups share a key. */
  lemma {:induction false} GroupKeysDistinct<K>(xs: seq<(K, int)>, n: nat)
    requires n <= |xs|
    ensures forall i, j :: 0 <= i < j < |GroupKeys(xs, n)| ==> GroupKeys(xs, n)[i] != GroupKeys(xs, n)[j]
  {
    if n > 0 {
      GroupKeysDistinct(xs, n - 1);
    }
  }

  /** A key that is not yet a group becomes one at the pair that has it. */
  lemma NewKeyCount<K>(xs: seq<(K, int)>, n: nat)
    requires 0 < n <= |xs| && xs[n - 1].0 !in GroupKeys(xs, n - 1)
    ensures CountOf(xs, n, xs[n - 1].0) == 1
  {
    GroupKeysSpec(xs, n - 1, xs[n - 1].0);
  }

  /** A key already among the groups occurs at an earlier pair. */
  lemma OldKeyOccurs<K>(xs: seq<(K, int)>, n: nat, k: K) returns (q: nat)
    requires n <= |xs| && k in GroupKeys(xs, n)
    ensures q < n && xs[q].0 == k
  {
    GroupKeysSpec(xs, n, k);
    CountOfSpec(xs, n, k);
    q :| 0 <= q < n && xs[q].0 == k;
  }

  /** Groups appear in order of first occurrence: any pair with the key of a
    * later group is preceded by a pair with the key of an earlier group. */
  lemma {:induction false} GroupKeysFirstOccurrence<K>(xs: seq<(K, int)>, n: nat, i: int, j: int, q: int)
    requires n <= |xs|
    requires 0 <= i < j < |GroupKeys(xs, n)| && 0 <= q < n && xs[q].0 == GroupKeys(xs, n)[j]
    ensures exists p | 0 <= p < q :: xs[p].0 == GroupKeys(xs, n)[i]
  {
    var ks := GroupKeys(xs, n - 1);
    assert ks == GroupKeys(xs, n)[..|ks|];
    if j < |ks| {
      if q < n - 1 {
        GroupKeysFirstOccurrence(xs, n - 1, i, j, q);
      } else {
        // The last pair's key is an old group: it already occurred earlier.
        var q2 := OldKeyOccurs(xs, n - 1, ks[j]);
        GroupKeysFirstOccurrence(xs, n - 1, i, j, q2);
      }
    } else {
      // Group j is the key the last pair introduced; group i is older.
      var p := OldKeyOccurs(xs, n - 1, ks[i]);
      if q < n - 1 {
        GroupKeysSpec(xs, n - 1, xs[q].0);
        CountOfSpec(xs, n - 1, xs[q].0);
      }
    }
  }

  /** The rows of a key number its count. */
  lemma {:induction false} RowsOfLength<K>(xs: seq<(K, int)>, n: nat, k: K)
    requires n <= |xs|
    ensures |RowsOf(xs, n, k)| == CountOf(xs, n, k)
  {
    if n > 0 {
      RowsOfLength(xs, n - 1, k);
    }
  }

  function SummaryKey(s: Summary): GroupKey {
    GroupKey(s.field, s.error)
  }

  /** Each summary's count is the number of errors with its key, and is
    * positive. */
  lemma SummaryCounts(errs: seq<ErrorEntry>, maxSamples: int, g: int)
    requires 0 <= g < |Summarize(errs, maxSamples)|
    ensures var s := Summarize(errs, maxSamples)[g];
      s.count == CountOf(KeyRows(errs), |errs|, SummaryKey(s)) && s.count > 0
  {
    var xs := KeyRows(errs);
    GroupKeysSpec(xs, |xs|, GroupKeys(xs, |xs|)[g]);
  }

  /** No two summaries share a key. */
  lemma SummaryKeysDistinct(errs: seq<ErrorEntry>, maxSamples: int, g: int, h: int)
    requires 0 <= g < h < |Summarize(errs, maxSamples)|
    ensures SummaryKey(Summarize(errs, maxSamples)[g]) != SummaryKey(Summarize(errs, maxSamples)[h])
  {
    GroupKeysDistinct(KeyRows(errs), |errs|);
  }

  /** Summaries follow the order of first occurrence: an error with the key
    * of a later summary is preceded by an error with the key of an earlier one. */
  lemma SummaryOrder(errs: seq<ErrorEntry>, maxSamples: int, g: int, h: int, q: int)
    requires 0 <= g < h < |Summarize(errs, maxSamples)| && 0 <= q < |errs|
    requires KeyOf(errs[q]) == SummaryKey(Summarize(errs, maxSamples)[h])
    ensures exists p | 0 <= p < q :: KeyOf(errs[p]) == SummaryKey(Summarize(errs, maxSamples)[g])
  {
    var xs := KeyRows(errs);
    GroupKeysFirstOccurrence(xs, |xs|, g, h, q);
    var p :| 0 <= p < q && xs[p].0 == GroupKeys(xs, |xs|)[g];
  }

  /** Every error's key is the key of some summary. */
  lemma SummaryCoversErrors(errs: seq<ErrorEntry>, maxSamples: int, q: int)
    requires 0 <= q < |errs|
    ensures exists g | 0 <= g < |Summarize(errs, maxSamples)| ::
      SummaryKey(Summarize(errs, maxSamples)[g]) == KeyOf(errs[q])
  {
    var xs := KeyRows(errs);
    CountOfSpec(xs, |xs|, KeyOf(errs[q]));
    GroupKeysSpec(xs, |xs|, KeyOf(errs[q]));
    var ks := GroupKeys(xs, |xs|);
    var g :| 0 <= g < |ks| && ks[g] == KeyOf(errs[q]);
    assert SummaryKey(Summarize(errs, maxSamples)[g]) == ks[g];
  }

  /** Each group's samples are the rows of its first min(count, maxSamples)
    * errors, in input order. */
  lemma SampleRowsSpec(errs: seq<ErrorEntry>, maxSamples: int, g: int)
    requires 0 <= g < |Summarize(errs, maxSamples)|
    ensures var s := Summarize(errs, maxSamples)[g];
      && s.sampleRows == RowsOf(KeyRows(errs), |errs|, SummaryKey(s))[..|s.sampleRows|]
      && |s.sampleRows| == (if maxSamples <= 0 then 0 else if s.count <= maxSamples then s.count else maxSamples)
  {
    var xs := KeyRows(errs);
    RowsOfLength(xs, |xs|, GroupKeys(xs, |xs|)[g]);
  }

  /** Σ of the counts of the keys `ks`. */
  function CountsOver<K(==)>(ks: seq<K>, xs: seq<(K, int)>, n: nat): nat
    requires n <= |xs|
  {
    if ks == [] then 0 else CountsOver(ks[..|ks| - 1], xs, n) + CountOf(xs, n, ks[|ks| - 1])
  }

  /** One more pair adds one to the total of distinct keys that include its key. */
  lemma {:induction false} CountsOverStep<K>(ks: seq<K>, xs: seq<(K, int)>, n: nat)
    requires n < |xs|
    requires forall i, j :: 0 <= i < j < |ks| ==> ks[i] != ks[j]
    ensures CountsOver(ks, xs, n + 1) == CountsOver(ks, xs, n) + (if xs[n].0 in ks then 1 else 0)
  {
    if ks != [] {
      var init := ks[..|ks| - 1];
      CountsOverStep(init, xs, n);
      assert xs[n].0 in ks <==> xs[n].0 in init || xs[n].0 == ks[|ks| - 1];
    }
  }

  lemma CountsOverAppend<K>(ks: seq<K>, k: K, xs: seq<(K, int)>, n: nat)
    requires n <= |xs|
    ensures CountsOver(ks + [k], xs, n) == CountsOver(ks, xs, n) + CountOf(xs, n, k)
  {
    assert (ks + [k])[..|ks|] == ks;
  }

  /** `CountsOverStep` for the groups themselves, which are distinct. */
  lemma CountsOverGroupsStep<K>(xs: seq<(K, int)>, n: nat)
    requires 0 < n <= |xs|
    ensures var ks := GroupKeys(xs, n - 1);
      CountsOver(ks, xs, n) == CountsOver(ks, xs, n - 1) + (if xs[n - 1].0 in ks then 1 else 0)
  {
    GroupKeysDistinct(xs, n - 1);
    CountsOverStep(GroupKeys(xs, n - 1), xs, n - 1);
  }

  /** The group counts add up to the number of pairs. */
  lemma {:induction false} CountsSumToTotal<K>(xs: seq<(K, int)>, n: nat)
    requires n <= |xs|
    ensures CountsOver(GroupKeys(xs, n), xs, n) == n
  {
    if n > 0 {
      var ks := GroupKeys(xs, n - 1);
      var k := xs[n - 1].0;
      CountsSumToTotal(xs, n - 1);
      CountsOverGroupsStep(xs, n);
      if k !in ks {
        NewKeyCount(xs, n);
        CountsOverAppend(ks, k, xs, n);
      }
    }
  }

  /** Σ of the `count` fields. */
  function TotalCount(gs: seq<Summary>): nat {
    if gs == [] then 0 else TotalCount(gs[..|gs| - 1]) + gs[|gs| - 1].count
  }

  lemma {:induction false} TotalCountIsCountsOver(gs: seq<Summary>, ks: seq<GroupKey>, xs: seq<(GroupKey, int)>)
    requires |gs| == |ks| && forall i :: 0 <= i < |gs| ==> gs[i].count == CountOf(xs, |xs|, ks[i])
    ensures TotalCount(gs) == CountsOver(ks, xs, |xs|)
  {
    if gs != [] {
      TotalCountIsCountsOver(gs[..|gs| - 1], ks[..|ks| - 1], xs);
    }
  }

  /** The counts of the summaries sum to the number of errors. */
  lemma SummaryCountsSum(errs: seq<ErrorEntry>, maxSamples: int)
    ensures TotalCount(Summarize(errs, maxSamples)) == |errs|
  {
    var xs := KeyRows(errs);
    TotalCountIsCountsOver(Summarize(errs, maxSamples), GroupKeys(xs, |xs|), xs);
    CountsSumToTotal(xs, |xs|);
  }

  /** Appending to a list extends its first `n` elements only while they
    * are fewer than `n`. */
  lemma TakeAppend(rows: seq<int>, x: int, n: int)
    ensures Take(rows + [x], n) == if |Take(rows, n)| < n then Take(rows, n) + [x] else Take(rows, n)
  {
    if n > 0 && |rows| >= n {
      assert (rows + [x])[..n] == rows[..n];
    }
  }

  /** Each key's count is the number of the first `n` pairs with it. */
  ghost predicate CountsMatch<K>(xs: seq<(K, int)>, n: nat, counts: map<K, nat>)
    requires n <= |xs|
  {
    forall k :: k in counts ==> counts[k] == CountOf(xs, n, k)
  }

  /** Each key's samples are the first rows of the first `n` pairs with it. */
  ghost predicate SamplesMatch<K>(xs: seq<(K, int)>, n: nat, samples: map<K, seq<int>>, maxSamples: int)
    requires n <= |xs|
  {
    forall k :: k in samples ==> samples[k] == Take(RowsOf(xs, n, k), maxSamples)
  }

  /** The keys are the groups of the first `n` pairs, in insertion order;
    * each is in the dictionary, and the dictionary holds no zero count. */
  ghost predicate KeysMatch<K>(xs: seq<(K, int)>, n: nat, keys: seq<K>, counts: map<K, nat>)
    requires n <= |xs|
  {
    && keys == GroupKeys(xs, n)
    && (forall i :: 0 <= i < |keys| ==> keys[i] in counts)
    && (forall k :: k in counts ==> counts[k] > 0)
  }

  /** The state of the grouping loop once the first `n` errors are
    * processed: the `defaultdict` keys in insertion order, with each key's
    * count and first samples. */
  ghost predicate Grouped<K>(xs: seq<(K, int)>, n: nat, keys: seq<K>, counts: map<K, nat>,
                             samples: map<K, seq<int>>, maxSamples: int)
  {
    && n <= |xs|
    && counts.Keys == samples.Keys
    && KeysMatch(xs, n, keys, counts)
    && CountsMatch(xs, n, counts)
    && SamplesMatch(xs, n, samples, maxSamples)
  }

  /** One iteration of the grouping loop on the samples. */
  lemma SamplesStep<K>(xs: seq<(K, int)>, i: nat, samples: map<K, seq<int>>, g: seq<int>,
                       samples': map<K, seq<int>>, maxSamples: int)
    requires i < |xs| && SamplesMatch(xs, i, samples, maxSamples)
    requires g == Take(RowsOf(xs, i, xs[i].0), maxSamples)
    requires samples' == samples[xs[i].0 := if |g| < maxSamples then g + [xs[i].1] else g]
    ensures SamplesMatch(xs, i + 1, samples', maxSamples)
  {
    TakeAppend(RowsOf(xs, i, xs[i].0), xs[i].1, maxSamples);
  }

  /** One iteration of the grouping loop on the counts. */
  lemma CountsStep<K>(xs: seq<(K, int)>, i: nat, counts: map<K, nat>, c: nat, counts': map<K, nat>)
    requires i < |xs| && CountsMatch(xs, i, counts)
    requires c == CountOf(xs, i, xs[i].0) && counts' == counts[xs[i].0 := c + 1]
    ensures CountsMatch(xs, i + 1, counts')
  {
  }

  /** One iteration of the grouping loop on the keys. */
  lemma KeysStep<K>(xs: seq<(K, int)>, i: nat, keys: seq<K>, counts: map<K, nat>, c: nat,
                    keys': seq<K>, counts': map<K, nat>)
    requires i < |xs| && KeysMatch(xs, i, keys, counts) && CountsMatch(xs, i, counts)
    requires keys' == (if xs[i].0 in counts then keys else keys + [xs[i].0])
    requires counts' == counts[xs[i].0 := c + 1]
    ensures KeysMatch(xs, i + 1, keys', counts')
  {
    var k := xs[i].0;
    GroupKeysSpec(xs, i, k);
    if k in keys {
      var j :| 0 <= j < |keys| && keys[j] == k;
    }
  }

  /** The count and samples of a key not yet in the dictionary are 0 and []. */
  lemma AbsentKeyEmpty<K>(xs: seq<(K, int)>, i: nat, k: K)
    requires i <= |xs| && k !in GroupKeys(xs, i)
    ensures CountOf(xs, i, k) == 0 && RowsOf(xs, i, k) == []
  {
    GroupKeysSpec(xs, i, k);
    RowsOfLength(xs, i, k);
  }

  /** Setting the same key in two maps with equal domains keeps them equal. */
  lemma DomainsStep<K, A, B>(a: map<K, A>, b: map<K, B>, k: K, x: A, y: B)
    requires a.Keys == b.Keys
    ensures a[k := x].Keys == b[k := y].Keys
  {
    assert a[k := x].Keys == a.Keys + {k};
    assert b[k := y].Keys == b.Keys + {k};
  }

  /** One iteration of the grouping loop keeps `Grouped`: a key seen for the
    * first time is appended with a zero count and no samples, then its count
    * grows by one and its samples by the row while they are fewer than the
    * maximum. */
  lemma GroupedStep<K>(xs: seq<(K, int)>, i: nat, keys: seq<K>, counts: map<K, nat>,
                       samples: map<K, seq<int>>, maxSamples: int, c: nat, g: seq<int>,
                       keys': seq<K>, counts': map<K, nat>, samples': map<K, seq<int>>)
    requires i < |xs| && Grouped(xs, i, keys, counts, samples, maxSamples)
    requires c == (if xs[i].0 in counts then counts[xs[i].0] else 0)
    requires g == (if xs[i].0 in samples then samples[xs[i].0] else [])
    requires keys' == (if xs[i].0 in counts then keys else keys + [xs[i].0])
    requires counts' == counts[xs[i].0 := c + 1]
    requires samples' == samples[xs[i].0 := if |g| < maxSamples then g + [xs[i].1] else g]
    ensures Grouped(xs, i + 1, keys', counts', samples', maxSamples)
  {
    if xs[i].0 !in counts {
      AbsentKeyEmpty(xs, i, xs[i].0);
    }
    assert c == CountOf(xs, i, xs[i].0);
    assert g == Take(RowsOf(xs, i, xs[i].0), maxSamples);
    CountsStep(xs, i, counts, c, counts');
    KeysStep(xs, i, keys, counts, c, keys', counts');
    SamplesStep(xs, i, samples, g, samples', maxSamples);
    DomainsStep(counts, samples, xs[i].0, c + 1, if |g| < maxSamples then g + [xs[i].1] else g);
  }

  /** Before the loop, the empty dictionary has grouped no pair. */
  lemma GroupedEmpty<K>(xs: seq<(K, int)>, maxSamples: int)
    ensures Grouped(xs, 0, [], map[], map[], maxSamples)
  {
  }

  /** One iteration of the grouping loop: the error's key is counted, and its
    * row kept while the key has fewer than `maxSamples` samples. */
  method GroupOne(ghost xs: seq<(GroupKey, int)>, i: nat, e: ErrorEntry, keys: seq<GroupKey>, counts: map<GroupKey, nat>,
                  samples: map<GroupKey, seq<int>>, maxSamples: int)
      returns (keys': seq<GroupKey>, counts': map<GroupKey, nat>, samples': map<GroupKey, seq<int>>)
    requires i < |xs| && xs[i] == (KeyOf(e), e.row)
    requires Grouped(xs, i, keys, counts, samples, maxSamples)
    ensures Grouped(xs, i + 1, keys', counts', samples', maxSamples)
  {
    var key := KeyOf(e);
    var c := if key in counts then counts[key] else 0;
    var group := if key in samples then samples[key] else [];
    keys' := if key in counts then keys else keys + [key];
    counts' := counts[key := c + 1];
    samples' := samples[key := if |group| < maxSamples then group + [e.row] else group];
    GroupedStep(xs, i, keys, counts, samples, maxSamples, c, group, keys', counts', samples');
  }

  /** The grouping loop of `summarize_errors`, filling its `defaultdict`. */
  method GroupErrors(errs: seq<ErrorEntry>, maxSamples: int)
      returns (keys: seq<GroupKey>, counts: map<GroupKey, nat>, samples: map<GroupKey, seq<int>>)
    ensures Grouped(KeyRows(errs), |errs|, keys, counts, samples, maxSamples)
  {
    ghost var xs := KeyRows(errs);
    keys, counts, samples := [], map[], map[];
    var i := 0;
    GroupedEmpty(xs, maxSamples);
    while i < |errs|
      invariant 0 <= i <= |errs|
      invariant Grouped(xs, i, keys, counts, samples, maxSamples)
    {
      keys, counts, samples := GroupOne(xs, i, errs[i], keys, counts, samples, maxSamples);
      i := i + 1;
    }
  }

  /** `summarize_errors`: groups the errors, then lists each group with its
    * count and samples in the order the groups were first seen. */
  method SummarizeErrors(errs: seq<ErrorEntry>, maxSamples: int) returns (r: seq<Summary>)
    ensures r == Summarize(errs, maxSamples)
  {
    var keys, counts, samples := GroupErrors(errs, maxSamples);
    r := [];
    var j := 0;
    while j < |keys|
      invariant 0 <= j <= |keys|
      invariant r == Summarize(errs, maxSamples)[..j]
    {
      var k := keys[j];
      ghost var all := Summarize(errs, maxSamples);
      assert all[j] == Summary(k.field, k.error, counts[k], samples[k]);
      assert all[..j + 1] == all[..j] + [all[j]];
      r := r + [Summary(k.field, k.error, counts[k], samples[k])];
      j := j + 1;
    }
  }

  // ---------------------------------------------------------------------------
  // seed_db

  /** The five lists of the configuration; an absent list is empty. */
  datatype SeedConfig = SeedConfig(
    divisions: seq<int>,
    ranks: seq<string>,
    positions: seq<string>,
    departments: seq<string>,
    salaryBands: seq<int>)

  function NotIn<T(==)>(existing: seq<T>): T -> bool {
    (v: T) => v !in existing
  }

  function Names(rows: seq<CatalogRow>): seq<string> {
    seq(|rows|, i requires 0 <= i < |rows| => rows[i].name)
  }

  predicate HasDuplicates<T(==)>(s: seq<T>) {
    exists i, j | 0 <= i < j < |s| :: s[i] == s[j]
  }

  /** The rows `db.add(model(name=v))` inserts, each keyed one past the
    * largest key so far. */
  function AppendNamed(rows: seq<CatalogRow>, names: seq<string>): (r: seq<CatalogRow>)
    ensures |r| == |rows| + |names|
    ensures r[..|rows|] == rows
    ensures forall i :: 0 <= i < |names| ==> r[|rows| + i].name == names[i]
    decreases |names|
  {
    if names == [] then rows
    else
      var next := rows + [CatalogRow(NextId(CatalogIds(rows)), names[0])];
      var r := AppendNamed(next, names[1..]);
      assert r[..|rows|] == next[..|rows|];
      r
  }

  /** The inner loop of `seed_db` for one model: the configured values no
    * existing row has, in configuration order. The existence query does not
    * see rows added earlier in the same call: the session does not autoflush. */
  method AbsentValues<T(==)>(existing: seq<T>, values: seq<T>) returns (pending: seq<T>)
    ensures pending == Filter(values, NotIn(existing))
  {
    pending := [];
    var i := 0;
    while i < |values|
      invariant 0 <= i <= |values|
      invariant pending == Filter(values[..i], NotIn(existing))
    {
      var v := values[i];
      assert values[..i + 1] == values[..i] + [v];
      FilterAppend(values[..i], [v], NotIn(existing));
      if v !in existing {
        pending := pending + [v];
      }
      i := i + 1;
    }
    assert values[..i] == values;
  }

  /** A configured value is added iff no existing row has it, and after the
    * seed every configured value is present. */
  lemma SeedValueSpec<T>(existing: seq<T>, values: seq<T>, v: T)
    ensures v in Filter(values, NotIn(existing)) <==> v in values && v !in existing
    ensures v in values ==> v in existing + Filter(values, NotIn(existing))
  {
    FilterMembership(values, NotIn(existing), v);
  }

  datatype SeedOutcome = Seeded | SeedFailed

  /** Some model has a missing value configured twice, so the seed's commit
    * fails. */
  predicate SeedClash(divisions: seq<int>, ranks: seq<CatalogRow>, positions: seq<CatalogRow>,
      departments: seq<CatalogRow>, salaryBands: seq<int>, config: SeedConfig) {
    || HasDuplicates(Filter(config.divisions, NotIn(divisions)))
    || HasDuplicates(Filter(config.ranks, NotIn(Names(ranks))))
    || HasDuplicates(Filter(config.positions, NotIn(Names(positions))))
    || HasDuplicates(Filter(config.departments, NotIn(Names(departments))))
    || HasDuplicates(Filter(config.salaryBands, NotIn(salaryBands)))
  }

  /** `seed_db`: inserts the configured catalog values that are missing and
    * commits. Two equal missing values are both added, so the commit breaks a
    * key or a uniqueness constraint and nothing is stored. */
  method SeedDb(db: Database, config: SeedConfig) returns (outcome: SeedOutcome)
    modifies db
    ensures db.employees == old(db.employees)
    ensures var pd, pr, pp := Filter(config.divisions, NotIn(old(db.divisions))),
        Filter(config.ranks, NotIn(Names(old(db.ranks)))), Filter(config.positions, NotIn(Names(old(db.positions))));
      var pt, pb := Filter(config.departments, NotIn(Names(old(db.departments)))),
        Filter(config.salaryBands, NotIn(old(db.salaryBands)));
      var clash := SeedClash(old(db.divisions), old(db.ranks), old(db.positions), old(db.departments), old(db.salaryBands), config);
      && (outcome == SeedFailed <==> clash)
      && (clash ==>
        && db.divisions == old(db.divisions) && db.ranks == old(db.ranks) && db.positions == old(db.positions)
        && db.departments == old(db.departments) && db.salaryBands == old(db.salaryBands))
      && (!clash ==>
        && db.divisions == old(db.divisions) + pd
        && db.ranks == AppendNamed(old(db.ranks), pr)
        && db.positions == AppendNamed(old(db.positions), pp)
        && db.departments == AppendNamed(old(db.departments), pt)
        && db.salaryBands == old(db.salaryBands) + pb)
  {
    var pd := AbsentValues(db.divisions, config.divisions);
    var pr := AbsentValues(Names(db.ranks), config.ranks);
    var pp := AbsentValues(Names(db.positions), config.positions);
    var pt := AbsentValues(Names(db.departments), config.departments);
    var pb := AbsentValues(db.salaryBands, config.salaryBands);
    if HasDuplicates(pd) || HasDuplicates(pr) || HasDuplicates(pp) || HasDuplicates(pt) || HasDuplicates(pb) {
      return SeedFailed;
    }
    db.divisions := db.divisions + pd;
    db.ranks := AppendNamed(db.ranks, pr);
    db.positions := AppendNamed(db.positions, pp);
    db.departments := AppendNamed(db.departments, pt);
    db.salaryBands := db.salaryBands + pb;
    return Seeded;
  }
}
