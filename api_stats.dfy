/**
 * The statistics route: per-field frequency counts built by nested loops into
 * insertion-ordered dictionaries, then a stable sort by descending count and,
 * for equipment and muscles, the top ten.
 */
module ApiStats {
  import opened Models
  import DataLoader

  /** The three tag lists the statistics count over. */
  datatype Field = BodyParts | Equipments | TargetMuscles

  function Values(e: Exercise, f: Field): seq<string> {
    match f
    case BodyParts => e.bodyParts
    case Equipments => e.equipments
    case TargetMuscles => e.targetMuscles
  }

  /** Every entry of field `f`, exercise after exercise: the values the counting loops visit, in visiting order. */
  function Mentions(exs: seq<Exercise>, f: Field): seq<string> {
    if exs == [] then [] else Mentions(exs[..|exs| - 1], f) + Values(exs[|exs| - 1], f)
  }

  /** Number of occurrences of `k` in `s`. */
  function Count(s: seq<string>, k: string): nat {
    if s == [] then 0 else Count(s[..|s| - 1], k) + (if s[|s| - 1] == k then 1 else 0)
  }

  /** The distinct values of `s` in order of first appearance: the key order of a dictionary filled from `s`. */
  function FirstAppearances(s: seq<string>): seq<string> {
    if s == [] then []
    else if s[|s| - 1] in s[..|s| - 1] then FirstAppearances(s[..|s| - 1])
    else FirstAppearances(s[..|s| - 1]) + [s[|s| - 1]]
  }

  /** One key of a count dictionary with its count. */
  datatype Entry = Entry(key: string, count: nat)

  function EntriesFor(keys: seq<string>, s: seq<string>): (r: seq<Entry>)
    ensures |r| == |keys|
    ensures forall i :: 0 <= i < |r| ==> r[i] == Entry(keys[i], Count(s, keys[i]))
  {
    if keys == [] then [] else [Entry(keys[0], Count(s, keys[0]))] + EntriesFor(keys[1..], s)
  }

  /** `dict.items()` of the count dictionary filled from `s`, in key insertion order. */
  function Tally(s: seq<string>): seq<Entry> {
    EntriesFor(FirstAppearances(s), s)
  }

  function SumCounts(entries: seq<Entry>): nat {
    if entries == [] then 0 else entries[0].count + SumCounts(entries[1..])
  }

  /** The key order lists each value once, and lists exactly the values seen. */
  lemma {:induction false} FirstAppearancesSpec(s: seq<string>)
    ensures DataLoader.Distinct(FirstAppearances(s))
    ensures forall k :: k in FirstAppearances(s) <==> k in s
  {
    if s != [] {
      var p, v := s[..|s| - 1], s[|s| - 1];
      FirstAppearancesSpec(p);
      assert s == p + [v];
    }
  }

  lemma CountAppend(s: seq<string>, v: string, k: string)
    ensures Count(s + [v], k) == Count(s, k) + (if v == k then 1 else 0)
  {
    assert (s + [v])[..|s|] == s;
  }

  lemma {:induction false} CountAbsent(s: seq<string>, k: string)
    ensures k !in s <==> Count(s, k) == 0
  {
    if s != [] {
      CountAbsent(s[..|s| - 1], k);
      assert s == s[..|s| - 1] + [s[|s| - 1]];
    }
  }

  lemma FirstAppearancesAppend(s: seq<string>, v: string)
    ensures FirstAppearances(s + [v]) == if v in s then FirstAppearances(s) else FirstAppearances(s) + [v]
  {
    assert (s + [v])[..|s|] == s;
  }

  lemma MentionsAppend(exs: seq<Exercise>, i: nat, f: Field)
    requires i < |exs|
    ensures Mentions(exs[..i + 1], f) == Mentions(exs[..i], f) + Values(exs[i], f)
  {
    assert exs[..i + 1][..i] == exs[..i];
  }

  /** The count dictionary after `counts[v] = counts.get(v, 0) + 1` for each value of `s` in turn. */
  function CountMap(s: seq<string>): map<string, nat> {
    if s == [] then map[]
    else
      var m := CountMap(s[..|s| - 1]);
      var v := s[|s| - 1];
      m[v := (if v in m then m[v] else 0) + 1]
  }

  lemma CountMapAppend(s: seq<string>, v: string)
    ensures CountMap(s + [v]) == CountMap(s)[v := (if v in CountMap(s) then CountMap(s)[v] else 0) + 1]
  {
    assert (s + [v])[..|s|] == s;
  }

  /** The dictionary has exactly the values seen as keys, each mapped to its number of occurrences. */
  lemma {:induction false} CountMapSpec(s: seq<string>)
    ensures forall k :: k in CountMap(s) <==> k in s
    ensures forall k :: k in CountMap(s) ==> CountMap(s)[k] == Count(s, k)
  {
    if s != [] {
      var p, v := s[..|s| - 1], s[|s| - 1];
      CountMapSpec(p);
      assert s == p + [v];
      forall k ensures Count(s, k) == Count(p, k) + (if v == k then 1 else 0) {
        CountAppend(p, v, k);
      }
      CountAbsent(p, v);
    }
  }

  /** One `counts[v] = counts.get(v, 0) + 1` step, with `v` appended to the key order when it is new. */
  lemma CountingStep(s: seq<string>, v: string, counts: map<string, nat>, order: seq<string>)
    requires counts == CountMap(s) && order == FirstAppearances(s)
    ensures CountMap(s + [v]) == counts[v := (if v in counts then counts[v] else 0) + 1]
    ensures FirstAppearances(s + [v]) == if v in counts then order else order + [v]
  {
    CountMapAppend(s, v);
    FirstAppearancesAppend(s, v);
    CountMapSpec(s);
  }

  /**
   * The inner counting loop of get_api_stats: `counts[v] = counts.get(v, 0) + 1`
   * for each value of one exercise's field, where `counts`, with key order
   * `order`, is the dictionary already filled from the values `seen`.
   */
  method CountValues(values: seq<string>, counts0: map<string, nat>, order0: seq<string>, ghost seen: seq<string>)
    returns (counts: map<string, nat>, order: seq<string>)
    requires counts0 == CountMap(seen) && order0 == FirstAppearances(seen)
    ensures counts == CountMap(seen + values) && order == FirstAppearances(seen + values)
  {
    counts, order := counts0, order0;
    assert seen + values[..0] == seen;
    for j := 0 to |values|
      invariant counts == CountMap(seen + values[..j])
      invariant order == FirstAppearances(seen + values[..j])
    {
      var v := values[j];
      ghost var before := seen + values[..j];
      assert seen + values[..j + 1] == before + [v];
      CountingStep(before, v, counts, order);
      var previous := if v in counts then counts[v] else 0;
      if v !in counts {
        order := order + [v];
      }
      counts := counts[v := previous + 1];
    }
    assert values[..|values|] == values;
  }

  /**
   * The counting loops of get_api_stats for one field: for each exercise,
   * count its values into the dictionary `counts`, whose key insertion order
   * is `order`.
   */
  method CountOccurrences(exs: seq<Exercise>, f: Field) returns (counts: map<string, nat>, order: seq<string>)
    ensures order == FirstAppearances(Mentions(exs, f))
    ensures forall k :: k in counts <==> k in Mentions(exs, f)
    ensures forall k :: k in counts ==> counts[k] == Count(Mentions(exs, f), k)
  {
    counts, order := map[], [];
    for i := 0 to |exs|
      invariant counts == CountMap(Mentions(exs[..i], f))
      invariant order == FirstAppearances(Mentions(exs[..i], f))
    {
      counts, order := CountValues(Values(exs[i], f), counts, order, Mentions(exs[..i], f));
      MentionsAppend(exs, i, f);
    }
    assert exs[..|exs|] == exs;
    CountMapSpec(Mentions(exs, f));
  }

  /** Inserts `x` before the first entry whose count is not above its own. */
  function InsertByCount(x: Entry, s: seq<Entry>): (r: seq<Entry>)
    ensures multiset(r) == multiset(s) + multiset{x}
  {
    if s == [] || s[0].count <= x.count then [x] + s
    else (assert s == [s[0]] + s[1..]; [s[0]] + InsertByCount(x, s[1..]))
  }

  /**
   * `sorted(items, key=count, reverse=True)`: an insertion sort that puts each
   * entry before the later ones of equal count, as a stable descending sort does.
   */
  function SortByCountDesc(s: seq<Entry>): (r: seq<Entry>)
    ensures multiset(r) == multiset(s)
  {
    if s == [] then [] else (assert s == [s[0]] + s[1..]; InsertByCount(s[0], SortByCountDesc(s[1..])))
  }

  /** Counts never increase along the sequence. */
  predicate NonIncreasing(s: seq<Entry>) {
    forall i, j :: 0 <= i < j < |s| ==> s[i].count >= s[j].count
  }

  /** The entries of `s` whose count is `n`, in their order in `s`. */
  function WithCount(s: seq<Entry>, n: nat): seq<Entry> {
    if s == [] then [] else (if s[0].count == n then [s[0]] else []) + WithCount(s[1..], n)
  }

  lemma {:induction false} InsertByCountSorted(x: Entry, s: seq<Entry>)
    requires NonIncreasing(s)
    ensures NonIncreasing(InsertByCount(x, s))
  {
    if s != [] && s[0].count > x.count {
      InsertByCountSorted(x, s[1..]);
      var r := InsertByCount(x, s);
      var t := InsertByCount(x, s[1..]);
      assert r == [s[0]] + t;
      forall k | 0 <= k < |t| ensures t[k].count <= s[0].count {
        assert t[k] in multiset(t);
        assert t[k] in multiset(s[1..]) + multiset{x};
      }
    }
  }

  lemma {:induction false} InsertByCountStable(x: Entry, s: seq<Entry>, n: nat)
    requires forall k :: 0 <= k < |s| && s[k].count > x.count ==> forall m :: 0 <= m < k ==> s[m].count > x.count
    ensures WithCount(InsertByCount(x, s), n) == (if x.count == n then [x] else []) + WithCount(s, n)
  {
    if s == [] || s[0].count <= x.count {
      assert InsertByCount(x, s) == [x] + s;
    } else {
      forall k | 0 <= k < |s[1..]| && s[1..][k].count > x.count
        ensures forall m :: 0 <= m < k ==> s[1..][m].count > x.count
      {
        assert s[1..][k] == s[k + 1];
      }
      InsertByCountStable(x, s[1..], n);
      var t := InsertByCount(x, s[1..]);
      assert InsertByCount(x, s) == [s[0]] + t;
      assert ([s[0]] + t)[1..] == t;
      assert s[0].count != n || x.count != n;
    }
  }

  /** The sort result is in non-increasing count order, and equal counts keep their input order. */
  lemma {:induction false} SortByCountDescSpec(s: seq<Entry>)
    ensures NonIncreasing(SortByCountDesc(s))
    ensures forall n :: WithCount(SortByCountDesc(s), n) == WithCount(s, n)
  {
    if s != [] {
      SortByCountDescSpec(s[1..]);
      var t := SortByCountDesc(s[1..]);
      InsertByCountSorted(s[0], t);
      forall n ensures WithCount(SortByCountDesc(s), n) == WithCount(s, n) {
        InsertByCountStable(s[0], t, n);
      }
    }
  }

  lemma {:induction false} WithCountMembers(s: seq<Entry>, n: nat)
    ensures forall x :: x in WithCount(s, n) <==> x in s && x.count == n
  {
    if s != [] {
      WithCountMembers(s[1..], n);
      assert s == [s[0]] + s[1..];
    }
  }

  /** Two such sequences start with the same entry: the first of the largest count. */
  lemma StableSortHeads(a: seq<Entry>, b: seq<Entry>)
    requires NonIncreasing(a) && NonIncreasing(b)
    requires forall n :: WithCount(a, n) == WithCount(b, n)
    requires a != []
    ensures b != [] && a[0] == b[0]
  {
    var m := a[0].count;
    assert WithCount(a, m) == [a[0]] + WithCount(a[1..], m);
    assert WithCount(b, m) == WithCount(a, m);
    assert b != [];
    assert b[0].count == m by {
      WithCountMembers(b, m);
      assert a[0] in WithCount(b, m);
      var i :| 0 <= i < |b| && b[i] == a[0];
      assert b[0].count >= m;
      var n := b[0].count;
      WithCountMembers(a, n);
      assert WithCount(b, n) == [b[0]] + WithCount(b[1..], n);
      assert b[0] in WithCount(a, n);
      var j :| 0 <= j < |a| && a[j] == b[0];
      assert m >= n;
    }
    assert WithCount(b, m) == [b[0]] + WithCount(b[1..], m);
    assert WithCount(a, m) == WithCount(b, m);
    assert a[0] == WithCount(a, m)[0] == WithCount(b, m)[0] == b[0];
  }

  /** Dropping the same first entry from both leaves tails with the same entries per count. */
  lemma StableSortTails(a: seq<Entry>, b: seq<Entry>)
    requires a != [] && b != [] && a[0] == b[0]
    requires forall n :: WithCount(a, n) == WithCount(b, n)
    ensures forall n :: WithCount(a[1..], n) == WithCount(b[1..], n)
  {
    forall n ensures WithCount(a[1..], n) == WithCount(b[1..], n) {
      if n == a[0].count {
        assert WithCount(a, n)[1..] == WithCount(a[1..], n);
        assert WithCount(b, n)[1..] == WithCount(b[1..], n);
      } else {
        assert WithCount(a, n) == WithCount(a[1..], n);
        assert WithCount(b, n) == WithCount(b[1..], n);
      }
    }
  }

  /**
   * A stable descending sort has only one possible result: any sequence in
   * non-increasing count order that keeps each count's entries in their input
   * order is the result of SortByCountDesc.
   */
  lemma {:induction false} StableSortIsUnique(a: seq<Entry>, b: seq<Entry>)
    requires NonIncreasing(a) && NonIncreasing(b)
    requires forall n :: WithCount(a, n) == WithCount(b, n)
    ensures a == b
    decreases |a|
  {
    if a == [] {
      if b != [] {
        StableSortHeads(b, a);
      }
    } else {
      StableSortHeads(a, b);
      StableSortTails(a, b);
      StableSortIsUnique(a[1..], b[1..]);
      assert a == [a[0]] + a[1..] && b == [b[0]] + b[1..];
    }
  }

  /** No two entries share a key. */
  predicate DistinctKeys(s: seq<Entry>) {
    forall i, j :: 0 <= i < j < |s| ==> s[i].key != s[j].key
  }

  lemma {:induction false} InsertByCountDistinct(x: Entry, s: seq<Entry>)
    requires DistinctKeys(s)
    requires forall i :: 0 <= i < |s| ==> s[i].key != x.key
    ensures DistinctKeys(InsertByCount(x, s))
  {
    var r := InsertByCount(x, s);
    if s != [] && s[0].count > x.count {
      InsertByCountDistinct(x, s[1..]);
      var t := InsertByCount(x, s[1..]);
      assert r == [s[0]] + t;
      forall k | 0 <= k < |t| ensures t[k].key != s[0].key {
        assert t[k] in multiset(t);
        assert t[k] in multiset(s[1..]) + multiset{x};
      }
    }
  }

  lemma {:induction false} SortByCountDescDistinct(s: seq<Entry>)
    requires DistinctKeys(s)
    ensures DistinctKeys(SortByCountDesc(s))
  {
    if s != [] {
      SortByCountDescDistinct(s[1..]);
      var t := SortByCountDesc(s[1..]);
      forall k | 0 <= k < |t| ensures t[k].key != s[0].key {
        assert t[k] in multiset(t);
        assert t[k] in s[1..];
      }
      InsertByCountDistinct(s[0], t);
    }
  }

  lemma {:induction false} SumCountsInsert(x: Entry, s: seq<Entry>)
    ensures SumCounts(InsertByCount(x, s)) == x.count + SumCounts(s)
  {
    if s != [] && s[0].count > x.count {
      SumCountsInsert(x, s[1..]);
      assert ([s[0]] + InsertByCount(x, s[1..]))[1..] == InsertByCount(x, s[1..]);
    }
  }

  lemma {:induction false} SumCountsSort(s: seq<Entry>)
    ensures SumCounts(SortByCountDesc(s)) == SumCounts(s)
  {
    if s != [] {
      SumCountsSort(s[1..]);
      SumCountsInsert(s[0], SortByCountDesc(s[1..]));
    }
  }

  lemma {:induction false} SumCountsAppend(a: seq<Entry>, b: seq<Entry>)
    ensures SumCounts(a + b) == SumCounts(a) + SumCounts(b)
  {
    if a != [] {
      assert (a + b)[1..] == a[1..] + b;
      SumCountsAppend(a[1..], b);
    } else {
      assert a + b == b;
    }
  }

  /** Counting one more value `v` adds one to the total over the distinct keys exactly when `v` is among them. */
  lemma {:induction false} SumEntriesAppend(keys: seq<string>, s: seq<string>, v: string)
    requires DataLoader.Distinct(keys)
    ensures SumCounts(EntriesFor(keys, s + [v])) == SumCounts(EntriesFor(keys, s)) + (if v in keys then 1 else 0)
  {
    if keys != [] {
      SumEntriesAppend(keys[1..], s, v);
      CountAppend(s, v, keys[0]);
      assert v in keys <==> v == keys[0] || v in keys[1..];
      assert v == keys[0] ==> v !in keys[1..];
    }
  }

  lemma {:induction false} EntriesForAppend(a: seq<string>, b: seq<string>, s: seq<string>)
    ensures EntriesFor(a + b, s) == EntriesFor(a, s) + EntriesFor(b, s)
  {
    if a != [] {
      assert (a + b)[1..] == a[1..] + b;
      EntriesForAppend(a[1..], b, s);
    } else {
      assert a + b == b;
    }
  }

  /** The counts of a dictionary filled from `s` add up to the number of values in `s`. */
  lemma {:induction false} SumOfTally(s: seq<string>)
    ensures SumCounts(Tally(s)) == |s|
  {
    if s != [] {
      var p, v := s[..|s| - 1], s[|s| - 1];
      assert s == p + [v];
      SumOfTally(p);
      FirstAppearancesSpec(p);
      FirstAppearancesAppend(p, v);
      SumEntriesAppend(FirstAppearances(p), p, v);
      if v !in p {
        EntriesForAppend(FirstAppearances(p), [v], s);
        SumCountsAppend(EntriesFor(FirstAppearances(p), s), EntriesFor([v], s));
        CountAppend(p, v, v);
        CountAbsent(p, v);
      }
    }
  }

  /** A value occurs among the mentions exactly when some exercise lists it in that field. */
  lemma {:induction false} MentionsMembers(exs: seq<Exercise>, f: Field)
    ensures forall k :: k in Mentions(exs, f) <==> exists i :: 0 <= i < |exs| && k in Values(exs[i], f)
  {
    if exs != [] {
      var p := exs[..|exs| - 1];
      MentionsMembers(p, f);
      forall k | k in Mentions(exs, f) ensures exists i :: 0 <= i < |exs| && k in Values(exs[i], f) {
        if k in Mentions(p, f) {
          var i :| 0 <= i < |p| && k in Values(p[i], f);
          assert exs[i] == p[i];
        }
      }
      forall k | exists i :: 0 <= i < |exs| && k in Values(exs[i], f) ensures k in Mentions(exs, f) {
        var i :| 0 <= i < |exs| && k in Values(exs[i], f);
        if i < |p| {
          assert p[i] == exs[i];
        }
      }
    }
  }

  /** The count dictionary's items: one entry per value seen, with its number of occurrences. */
  lemma TallyMembers(m: seq<string>)
    ensures forall e :: e in Tally(m) <==> (e.key in m && e.count == Count(m, e.key))
    ensures DistinctKeys(Tally(m))
  {
    var t := Tally(m);
    var keys := FirstAppearances(m);
    FirstAppearancesSpec(m);
    forall e ensures e in t <==> (e.key in m && e.count == Count(m, e.key)) {
      if e.key in m && e.count == Count(m, e.key) {
        var i :| 0 <= i < |keys| && keys[i] == e.key;
        assert t[i] == e;
      }
    }
  }

  /** Sorting keeps exactly the entries of the tally. */
  lemma SortedCountsMembers(m: seq<string>)
    ensures forall e :: e in SortByCountDesc(Tally(m)) <==> (e.key in m && e.count == Count(m, e.key))
  {
    var t := Tally(m);
    var r := SortByCountDesc(t);
    TallyMembers(m);
    forall e ensures e in r <==> e in t {
      assert e in r <==> e in multiset(r);
      assert e in t <==> e in multiset(t);
    }
  }

  /**
   * What one count list of the statistics says: its entries are exactly the
   * distinct values of the field, each with its number of occurrences over all
   * exercises (at least one, from some exercise that lists it); the counts add
   * up to the number of entries of that field; counts never increase along the
   * list; and entries of equal count keep the order in which their keys first
   * appeared.
   */
  lemma SortedCountsSpec(exs: seq<Exercise>, f: Field)
    ensures forall e :: e in SortedCounts(exs, f) <==>
      (e.key in Mentions(exs, f) && e.count == Count(Mentions(exs, f), e.key))
    ensures forall e :: e in SortedCounts(exs, f) ==>
      e.count >= 1 && exists i :: 0 <= i < |exs| && e.key in Values(exs[i], f)
    ensures DistinctKeys(SortedCounts(exs, f))
    ensures SumCounts(SortedCounts(exs, f)) == |Mentions(exs, f)|
    ensures NonIncreasing(SortedCounts(exs, f))
    ensures forall n :: WithCount(SortedCounts(exs, f), n) == WithCount(Tally(Mentions(exs, f)), n)
  {
    var m := Mentions(exs, f);
    var t := Tally(m);
    var r := SortedCounts(exs, f);
    SortedCountsMembers(m);
    MentionsMembers(exs, f);
    forall e | e in r ensures e.count >= 1 {
      CountAbsent(m, e.key);
    }
    TallyMembers(m);
    SortByCountDescDistinct(t);
    SortByCountDescSpec(t);
    SumOfTally(m);
    SumCountsSort(t);
  }

  /** The statistics response. */
  datatype Stats = Stats(
    totalExercises: nat,
    totalMuscles: nat,
    totalBodyParts: nat,
    totalEquipments: nat,
    exercisesByBodypart: seq<Entry>,
    exercisesByEquipment: seq<Entry>,
    exercisesByMuscle: seq<Entry>)

  /** The slice `entries[:10]`. */
  function TopTen(entries: seq<Entry>): (r: seq<Entry>)
    ensures |r| == if |entries| < 10 then |entries| else 10
    ensures r <= entries
  {
    if |entries| < 10 then entries else entries[..10]
  }

  /** The sorted count list of one field, as get_api_stats reports it before any truncation. */
  function SortedCounts(exs: seq<Exercise>, f: Field): seq<Entry> {
    SortByCountDesc(Tally(Mentions(exs, f)))
  }

  /** `[(k, counts[k]) for k in order]`: the dictionary's items in insertion order. */
  method Items(counts: map<string, nat>, order: seq<string>) returns (items: seq<Entry>)
    requires forall k :: k in order ==> k in counts
    ensures |items| == |order|
    ensures forall i :: 0 <= i < |order| ==> items[i] == Entry(order[i], counts[order[i]])
  {
    items := [];
    for i := 0 to |order|
      invariant |items| == i
      invariant forall m :: 0 <= m < i ==> items[m] == Entry(order[m], counts[order[m]])
    {
      items := items + [Entry(order[i], counts[order[i]])];
    }
  }

  lemma ItemsAreTally(items: seq<Entry>, counts: map<string, nat>, order: seq<string>, s: seq<string>)
    requires order == FirstAppearances(s)
    requires forall k :: k in counts <==> k in s
    requires forall k :: k in counts ==> counts[k] == Count(s, k)
    requires |items| == |order|
    requires forall i :: 0 <= i < |order| ==> order[i] in counts && items[i] == Entry(order[i], counts[order[i]])
    ensures items == Tally(s)
  {
    FirstAppearancesSpec(s);
    var t := Tally(s);
    assert |t| == |items|;
    forall i | 0 <= i < |items| ensures items[i] == t[i] {
      assert order[i] in s;
    }
  }

  /**
   * get_api_stats: the catalog's sizes, every body part with its count in
   * descending order, and the ten most frequent equipments and target muscles.
   */
  method GetApiStats(cat: DataLoader.Catalog) returns (r: Stats)
    ensures r.totalExercises == |cat.exercises| && r.totalMuscles == |cat.muscles|
    ensures r.totalBodyParts == |cat.bodyParts| && r.totalEquipments == |cat.equipments|
    ensures r.exercisesByBodypart == SortedCounts(cat.exercises, BodyParts)
    ensures r.exercisesByEquipment == TopTen(SortedCounts(cat.exercises, Equipments))
    ensures r.exercisesByMuscle == TopTen(SortedCounts(cat.exercises, TargetMuscles))
  {
    var exercises := cat.exercises;
    var bodypartCounts, bodypartOrder := CountOccurrences(exercises, BodyParts);
    var equipmentCounts, equipmentOrder := CountOccurrences(exercises, Equipments);
    var muscleCounts, muscleOrder := CountOccurrences(exercises, TargetMuscles);
    FirstAppearancesSpec(Mentions(exercises, BodyParts));
    FirstAppearancesSpec(Mentions(exercises, Equipments));
    FirstAppearancesSpec(Mentions(exercises, TargetMuscles));
    var bodypartItems := Items(bodypartCounts, bodypartOrder);
    var equipmentItems := Items(equipmentCounts, equipmentOrder);
    var muscleItems := Items(muscleCounts, muscleOrder);
    ItemsAreTally(bodypartItems, bodypartCounts, bodypartOrder, Mentions(exercises, BodyParts));
    ItemsAreTally(equipmentItems, equipmentCounts, equipmentOrder, Mentions(exercises, Equipments));
    ItemsAreTally(muscleItems, muscleCounts, muscleOrder, Mentions(exercises, TargetMuscles));
    r := Stats(
      |exercises|, |cat.muscles|, |cat.bodyParts|, |cat.equipments|,
      SortByCountDesc(bodypartItems),
      TopTen(SortByCountDesc(equipmentItems)),
      TopTen(SortByCountDesc(muscleItems)));
  }
}
