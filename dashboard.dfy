/** The data view of `EVDashboard` (script.js) without the page it draws:
    the records, the filtered view, the dropdown values, the search term,
    the page cursor and the theme flag, with the pure computations behind
    them (filtering, the insight tallies, the page slice, the dropdown
    option lists and the pagination buttons). */
module Dashboard {
  import opened Seqs
  import opened Text
  import opened MockData

  // ---------------------------------------------------------------------
  // Filtering (applyFilters)
  // ---------------------------------------------------------------------

  /** What `Object.values(item)` lists for a generated record, in the order
      `generateEntry` creates the properties, each as `toString()` renders it. */
  function SearchableValues(v: Vehicle): seq<string>
  {
    [v.id, v.manufacturer, v.vehicleType, v.model, IntToString(v.year), v.region,
     IntToString(v.price), IntToString(v.batteryCapacity), IntToString(v.range)]
  }

  /** The three dropdown values and the search term; "" means "any". */
  datatype Filters = Filters(vehicleType: string, manufacturer: string, year: string, search: string)

  const NoFilters := Filters("", "", "", "")

  /** Some property of `v`, lower-cased, contains `term`. */
  predicate SearchMatch(v: Vehicle, term: string)
  {
    exists i :: 0 <= i < |SearchableValues(v)| && Contains(LowerAscii(SearchableValues(v)[i]), term)
  }

  /** The predicate `applyFilters` hands to `Array.prototype.filter`. */
  predicate Matches(v: Vehicle, f: Filters)
  {
    && (f.vehicleType == "" || v.vehicleType == f.vehicleType)
    && (f.manufacturer == "" || v.manufacturer == f.manufacturer)
    && (f.year == "" || IntToString(v.year) == f.year)
    && (f.search == "" || SearchMatch(v, f.search))
  }

  /** `data.filter(item => Matches(item, f))`. */
  function FilterRecords(data: seq<Vehicle>, f: Filters): (r: seq<Vehicle>)
    ensures |r| <= |data|
    ensures forall v :: v in r <==> v in data && Matches(v, f)
  {
    if data == [] then []
    else
      var init, last := data[..|data| - 1], data[|data| - 1];
      assert data == init + [last];
      FilterRecords(init, f) + (if Matches(last, f) then [last] else [])
  }

  /** The filtered view keeps the records in their original order. */
  lemma {:induction false} FilterIsSubsequence(data: seq<Vehicle>, f: Filters)
    ensures IsSubsequence(FilterRecords(data, f), data)
  {
    if data != [] {
      var init, last := data[..|data| - 1], data[|data| - 1];
      var r := FilterRecords(init, f);
      FilterIsSubsequence(init, f);
      if Matches(last, f) {
        var s := r + [last];
        assert FilterRecords(data, f) == s;
        assert s[..|s| - 1] == r && s[|s| - 1] == data[|data| - 1];
        assert IsSubsequence(s[..|s| - 1], data[..|data| - 1]);
      } else {
        assert FilterRecords(data, f) == r + [];
        assert r + [] == r;
      }
    }
  }

  /** Filtering a concatenation filters each part. */
  lemma {:induction false} FilterAppend(a: seq<Vehicle>, b: seq<Vehicle>, f: Filters)
    ensures FilterRecords(a + b, f) == FilterRecords(a, f) + FilterRecords(b, f)
  {
    if b == [] {
      assert a + b == a;
    } else {
      var init, last := b[..|b| - 1], b[|b| - 1];
      assert (a + b)[..|a + b| - 1] == a + init;
      assert (a + b)[|a + b| - 1] == last;
      FilterAppend(a, init, f);
    }
  }

  /** With every dropdown and the search box empty, nothing is filtered out. */
  lemma {:induction false} NoFiltersKeepAll(data: seq<Vehicle>)
    ensures FilterRecords(data, NoFilters) == data
  {
    if data != [] {
      NoFiltersKeepAll(data[..|data| - 1]);
    }
  }

  /** Filtering the filtered view changes nothing. */
  lemma {:induction false} FilterIdempotent(data: seq<Vehicle>, f: Filters)
    ensures FilterRecords(FilterRecords(data, f), f) == FilterRecords(data, f)
  {
    if data != [] {
      var init, last := data[..|data| - 1], data[|data| - 1];
      FilterIdempotent(init, f);
      var kept := if Matches(last, f) then [last] else [];
      FilterAppend(FilterRecords(init, f), kept, f);
      if Matches(last, f) {
        assert kept[..0] == [];
      }
    }
  }

  /** The year dropdown, set to the rendering of `year`, keeps exactly the
      records of that year. */
  lemma YearFilterSelectsYear(v: Vehicle, year: int)
    ensures Matches(v, Filters("", "", IntToString(year), "")) <==> v.year == year
  {
    IntToStringInjective(v.year, year);
  }

  /** The search `handleSearch` sets up ignores letter case on both sides:
      a record matches the lower-cased input exactly when one of its
      properties holds the input at some position up to case, and in
      particular whenever a property contains the input as typed. */
  lemma SearchFindsAnyCase(v: Vehicle, input: string)
    ensures SearchMatch(v, LowerAscii(input)) <==>
              exists i, j :: 0 <= i < |SearchableValues(v)| && OccursIgnoringCase(SearchableValues(v)[i], input, j)
    ensures forall i :: 0 <= i < |SearchableValues(v)| && Contains(SearchableValues(v)[i], input) ==>
              SearchMatch(v, LowerAscii(input))
  {
    var vs := SearchableValues(v);
    if SearchMatch(v, LowerAscii(input)) {
      var i :| 0 <= i < |vs| && Contains(LowerAscii(vs[i]), LowerAscii(input));
      LowerContainsIffOccursIgnoringCase(vs[i], input);
      var j :| OccursIgnoringCase(vs[i], input, j);
    }
    if exists i, j :: 0 <= i < |vs| && OccursIgnoringCase(vs[i], input, j) {
      var i, j :| 0 <= i < |vs| && OccursIgnoringCase(vs[i], input, j);
      LowerContainsIffOccursIgnoringCase(vs[i], input);
    }
    forall i | 0 <= i < |vs| && Contains(vs[i], input)
      ensures SearchMatch(v, LowerAscii(input))
    {
      ContainsLowered(vs[i], input);
    }
  }

  /** After `handleSearch(input)` with the dropdowns `f`, every record that
      passes the dropdowns and has a property containing the input, in any
      letter case, stays in the view. */
  lemma SearchKeepsMatchingRecords(data: seq<Vehicle>, f: Filters, input: string, v: Vehicle, i: nat, j: nat)
    requires v in data
    requires f.vehicleType == "" || v.vehicleType == f.vehicleType
    requires f.manufacturer == "" || v.manufacturer == f.manufacturer
    requires f.year == "" || IntToString(v.year) == f.year
    requires i < |SearchableValues(v)| && OccursIgnoringCase(SearchableValues(v)[i], input, j)
    ensures v in FilterRecords(data, Filters(f.vehicleType, f.manufacturer, f.year, LowerAscii(input)))
  {
    SearchFindsAnyCase(v, input);
  }

  // ---------------------------------------------------------------------
  // Insight tallies (getTopItems)
  // ---------------------------------------------------------------------

  /** The record properties `getTopItems` is called with. */
  datatype Field = ManufacturerKey | VehicleTypeKey | YearKey

  /** `item[key]` as a property name of the tally object: a year becomes its
      decimal string. */
  function KeyOf(v: Vehicle, key: Field): string
  {
    match key
    case ManufacturerKey => v.manufacturer
    case VehicleTypeKey => v.vehicleType
    case YearKey => IntToString(v.year)
  }

  function Values(data: seq<Vehicle>, key: Field): (vals: seq<string>)
    ensures |vals| == |data|
    ensures forall i :: 0 <= i < |data| ==> vals[i] == KeyOf(data[i], key)
  {
    seq(|data|, i requires 0 <= i < |data| => KeyOf(data[i], key))
  }

  /** Each key paired with the number of times it occurs in `vals`. */
  function Tally(keys: seq<string>, vals: seq<string>): (t: seq<(string, nat)>)
    ensures |t| == |keys|
    ensures forall i :: 0 <= i < |keys| ==> t[i] == (keys[i], Occurrences(vals, keys[i]))
  {
    seq(|keys|, i requires 0 <= i < |keys| => (keys[i], Occurrences(vals, keys[i])))
  }

  function Count(entry: (string, nat)): int
  {
    entry.1
  }

  /** The comparator `(a, b) => b[1] - a[1]` as a rank: larger counts first. */
  function CountRank(entry: (string, nat)): int
  {
    -(entry.1 as int)
  }

  function KeysOf(entries: seq<(string, nat)>): (keys: seq<string>)
    ensures |keys| == |entries|
    ensures forall i :: 0 <= i < |entries| ==> keys[i] == entries[i].0
  {
    seq(|entries|, i requires 0 <= i < |entries| => entries[i].0)
  }

  /** `slice(0, limit)`, where an absent limit keeps everything. */
  function Take<T>(s: seq<T>, limit: Option<nat>): (r: seq<T>)
    ensures limit == None ==> r == s
    ensures limit.Some? ==> r == s[..if limit.value < |s| then limit.value else |s|]
  {
    match limit
    case None => s
    case Some(n) => if n < |s| then s[..n] else s
  }

  /** A property name that is an array index: the canonical decimal form of
      an integer below 2^32 - 1. */
  predicate IsArrayIndex(key: string)
  {
    NatToString(ParseNat(key)) == key && ParseNat(key) < 0xFFFF_FFFF
  }

  function KeysWhere(keys: seq<string>, index: bool): (r: seq<string>)
    ensures forall k :: k in r <==> k in keys && IsArrayIndex(k) == index
  {
    if keys == [] then []
    else
      var init, last := keys[..|keys| - 1], keys[|keys| - 1];
      assert keys == init + [last];
      KeysWhere(init, index) + (if IsArrayIndex(last) == index then [last] else [])
  }

  lemma {:induction false} KeysWhereSplit(keys: seq<string>)
    ensures multiset(KeysWhere(keys, true)) + multiset(KeysWhere(keys, false)) == multiset(keys)
  {
    if keys != [] {
      var init, last := keys[..|keys| - 1], keys[|keys| - 1];
      assert keys == init + [last];
      KeysWhereSplit(init);
      if IsArrayIndex(last) {
        assert KeysWhere(keys, true) == KeysWhere(init, true) + [last];
        assert KeysWhere(keys, false) == KeysWhere(init, false);
      } else {
        assert KeysWhere(keys, true) == KeysWhere(init, true);
        assert KeysWhere(keys, false) == KeysWhere(init, false) + [last];
      }
    }
  }

  function IndexValue(key: string): int
  {
    ParseNat(key)
  }

  /** The order `Object.entries` lists own properties in: array-index names
      ascending by value, then the other names in creation order. */
  function ObjectKeyOrder(keys: seq<string>): (r: seq<string>)
    ensures multiset(r) == multiset(keys)
  {
    KeysWhereSplit(keys);
    SortBy(KeysWhere(keys, true), IndexValue) + KeysWhere(keys, false)
  }

  /** The decimal rendering of a small enough natural number, such as a
      registration year, is an array-index property name. */
  lemma NaturalKeyIsArrayIndex(n: nat)
    requires n < 0xFFFF_FFFF
    ensures IsArrayIndex(NatToString(n))
  {
    ParseNatToString(n);
  }

  lemma {:induction false} AllIndexKeys(keys: seq<string>)
    requires forall k :: k in keys ==> IsArrayIndex(k)
    ensures KeysWhere(keys, true) == keys
    ensures KeysWhere(keys, false) == []
  {
    if keys != [] {
      var init := keys[..|keys| - 1];
      assert keys == init + [keys[|keys| - 1]];
      AllIndexKeys(init);
    }
  }

  /** The property names of a year tally are listed ascending by year. */
  lemma YearTallyKeysAscending(data: seq<Vehicle>)
    requires forall i :: 0 <= i < |data| ==> 0 <= data[i].year < 0xFFFF_FFFF
    ensures SortedBy(ObjectKeyOrder(Unique(Values(data, YearKey))), IndexValue)
  {
    var vals := Values(data, YearKey);
    forall k | k in Unique(vals)
      ensures IsArrayIndex(k)
    {
      var i :| 0 <= i < |vals| && vals[i] == k;
      NaturalKeyIsArrayIndex(data[i].year);
    }
    AllIndexKeys(Unique(vals));
    assert SortBy(Unique(vals), IndexValue) + [] == SortBy(Unique(vals), IndexValue);
  }

  /** The tally object's entries in `Object.entries` order, sorted by
      descending count (a stable sort, `Seqs.SortByStable`), before the slice. */
  function SortedTally(data: seq<Vehicle>, key: Field): seq<(string, nat)>
  {
    var vals := Values(data, key);
    SortBy(Tally(ObjectKeyOrder(Unique(vals)), vals), CountRank)
  }

  /** `getTopItems(data, key, limit)`. */
  function TopItemsOf(data: seq<Vehicle>, key: Field, limit: Option<nat>): seq<(string, nat)>
  {
    Take(SortedTally(data, key), limit)
  }

  /** `counts` and `keys` hold the tally of `vals`: the names in creation
      order and, for each, its number of occurrences. */
  ghost predicate Tallies(counts: map<string, nat>, keys: seq<string>, vals: seq<string>)
  {
    && keys == Unique(vals)
    && (forall k :: k in counts <==> k in keys)
    && (forall k :: k in counts ==> counts[k] == Occurrences(vals, k))
  }

  /** One step of the `reduce`, `acc[k] = (acc[k] || 0) + 1`, for a key
      already counted. */
  lemma TalliesIncrement(counts: map<string, nat>, keys: seq<string>, vals: seq<string>, k: string)
    requires Tallies(counts, keys, vals) && k in counts
    ensures Tallies(counts[k := counts[k] + 1], keys, vals + [k])
  {
    UniqueAppend(vals, k);
    assert Unique(vals + [k]) == keys;
    var next := counts[k := counts[k] + 1];
    assert forall y :: y in next <==> y in counts;
    forall y | y in next
      ensures next[y] == Occurrences(vals + [k], y)
    {
      OccurrencesAppend(vals, k, y);
    }
  }

  /** The same step for a key seen for the first time: it becomes the
      newest property of the tally. */
  lemma TalliesInsert(counts: map<string, nat>, keys: seq<string>, vals: seq<string>, k: string)
    requires Tallies(counts, keys, vals) && k !in counts
    ensures Tallies(counts[k := 1], keys + [k], vals + [k])
  {
    UniqueAppend(vals, k);
    assert Unique(vals + [k]) == keys + [k];
    var next := counts[k := 1];
    assert forall y :: y in next <==> y in keys + [k];
    forall y | y in next
      ensures next[y] == Occurrences(vals + [k], y)
    {
      OccurrencesAppend(vals, k, y);
    }
  }

  /** The `reduce` that fills the tally object from the keys `item[key]`
      of the records: `keys` lists its property names in creation order and
      `counts` maps each one to its count. */
  method CountKeys(vals: seq<string>) returns (counts: map<string, nat>, keys: seq<string>)
    ensures Tallies(counts, keys, vals)
  {
    counts := map[];
    keys := [];
    var i := 0;
    while i < |vals|
      invariant 0 <= i <= |vals|
      invariant Tallies(counts, keys, vals[..i])
    {
      var k := vals[i];
      assert vals[..i + 1] == vals[..i] + [k];
      if k in counts {
        TalliesIncrement(counts, keys, vals[..i], k);
        counts := counts[k := counts[k] + 1];
      } else {
        TalliesInsert(counts, keys, vals[..i], k);
        counts := counts[k := 1];
        keys := keys + [k];
      }
      i := i + 1;
    }
    assert vals[..i] == vals;
  }

  /** Every name of a reordering of `keys` is a property of the tally. */
  /** `Object.entries(counts)` with the property names listed in `ordered`. */
  function EntriesOf(counts: map<string, nat>, ordered: seq<string>): (entries: seq<(string, nat)>)
    requires forall j :: 0 <= j < |ordered| ==> ordered[j] in counts
    ensures |entries| == |ordered|
    ensures forall j :: 0 <= j < |ordered| ==> entries[j] == (ordered[j], counts[ordered[j]])
  {
    seq(|ordered|, j requires 0 <= j < |ordered| && ordered[j] in counts => (ordered[j], counts[ordered[j]]))
  }

  /** Listing the tally's names in any order gives each with its count. */
  lemma TalliesCoverReordering(counts: map<string, nat>, keys: seq<string>, vals: seq<string>, ordered: seq<string>)
    requires Tallies(counts, keys, vals)
    requires multiset(ordered) == multiset(keys)
    ensures forall j :: 0 <= j < |ordered| ==> ordered[j] in counts
    ensures EntriesOf(counts, ordered) == Tally(ordered, vals)
  {
    forall j | 0 <= j < |ordered|
      ensures ordered[j] in keys
    {
      assert ordered[j] in multiset(keys);
    }
  }

  /** `getTopItems`: the tally, its entries in property order, the sort by
      descending count and the slice. */
  method TopItems(data: seq<Vehicle>, key: Field, limit: Option<nat>) returns (top: seq<(string, nat)>)
    ensures top == TopItemsOf(data, key, limit)
  {
    var vals := Values(data, key);
    var counts, keys := CountKeys(vals);
    var ordered := ObjectKeyOrder(keys);
    TalliesCoverReordering(counts, keys, vals, ordered);
    var entries := EntriesOf(counts, ordered);
    top := Take(SortBy(entries, CountRank), limit);
  }

  lemma TallyEntries(keys: seq<string>, vals: seq<string>)
    ensures forall e :: e in Tally(keys, vals) ==> e.0 in keys && e.1 == Occurrences(vals, e.0)
  {
    var t := Tally(keys, vals);
    forall e | e in t
      ensures e.0 in keys && e.1 == Occurrences(vals, e.0)
    {
      var j :| 0 <= j < |t| && t[j] == e;
    }
  }

  /** Every entry of the tally carries a key present in the data and the
      number of records with that key. */
  lemma SortedTallyCounts(data: seq<Vehicle>, key: Field)
    ensures forall e :: e in SortedTally(data, key) ==>
              e.0 in Values(data, key) && e.1 == Occurrences(Values(data, key), e.0)
  {
    var vals := Values(data, key);
    var ordered := ObjectKeyOrder(Unique(vals));
    var full := SortedTally(data, key);
    assert multiset(full) == multiset(Tally(ordered, vals));
    TallyEntries(ordered, vals);
    forall e | e in full
      ensures e.0 in ordered && e.1 == Occurrences(vals, e.0)
    {
      assert e in multiset(full);
    }
    forall k | k in ordered
      ensures k in vals
    {
      assert k in multiset(ordered);
    }
  }

  /** Reordering entries keeps the set of keys. */
  lemma PermutationKeepsKeys(a: seq<(string, nat)>, b: seq<(string, nat)>)
    requires multiset(a) == multiset(b)
    ensures forall k :: k in KeysOf(a) ==> k in KeysOf(b)
  {
    forall k | k in KeysOf(a)
      ensures k in KeysOf(b)
    {
      var i :| 0 <= i < |a| && KeysOf(a)[i] == k;
      assert a[i] in multiset(b);
      var j :| 0 <= j < |b| && b[j] == a[i];
      assert KeysOf(b)[j] == k;
    }
  }

  /** Every key present in the data has an entry. */
  lemma SortedTallyComplete(data: seq<Vehicle>, key: Field)
    ensures forall k :: k in Values(data, key) <==> k in KeysOf(SortedTally(data, key))
  {
    var vals := Values(data, key);
    var ordered := ObjectKeyOrder(Unique(vals));
    var tally := Tally(ordered, vals);
    var full := SortedTally(data, key);
    assert KeysOf(tally) == ordered;
    PermutationKeepsKeys(tally, full);
    PermutationKeepsKeys(full, tally);
    forall k
      ensures k in ordered <==> k in vals
    {
      assert k in ordered <==> k in multiset(ordered);
    }
  }

  /** No key has two entries. */
  lemma SortedTallyDistinctKeys(data: seq<Vehicle>, key: Field)
    ensures forall i, j :: 0 <= i < j < |SortedTally(data, key)| ==>
              SortedTally(data, key)[i].0 != SortedTally(data, key)[j].0
  {
    var vals := Values(data, key);
    var u := Unique(vals);
    var ordered := ObjectKeyOrder(u);
    var tally := Tally(ordered, vals);
    var full := SortedTally(data, key);
    PermutationKeepsDistinct(u, ordered);
    TallyDistinct(ordered, vals);
    PermutationKeepsDistinct(tally, full);
    SortedTallyCounts(data, key);
    CountedPairsHaveDistinctKeys(full, vals);
  }

  /** Distinct pairs whose count is a function of the key have distinct keys. */
  lemma CountedPairsHaveDistinctKeys(s: seq<(string, nat)>, vals: seq<string>)
    requires Distinct(s)
    requires forall e :: e in s ==> e.1 == Occurrences(vals, e.0)
    ensures forall i, j :: 0 <= i < j < |s| ==> s[i].0 != s[j].0
  {
    forall i, j | 0 <= i < j < |s|
      ensures s[i].0 != s[j].0
    {
      assert s[i] in s && s[j] in s;
    }
  }

  /** The counts add up to the number of records. */
  lemma SortedTallySum(data: seq<Vehicle>, key: Field)
    ensures Sum(SortedTally(data, key), Count) == |data|
  {
    var vals := Values(data, key);
    var u := Unique(vals);
    var ordered := ObjectKeyOrder(u);
    var tally := Tally(ordered, vals);
    PermutationKeepsDistinct(u, ordered);
    forall x | x in vals
      ensures x in ordered
    {
      assert x in multiset(ordered);
    }
    SumPermutation(SortedTally(data, key), tally, Count);
    TallyCountsAll(ordered, vals);
  }

  lemma TakeKeepsEntries(full: seq<(string, nat)>, limit: Option<nat>)
    ensures forall e :: e in Take(full, limit) ==> e in full
  {
  }

  lemma TakeKeepsDistinctKeys(full: seq<(string, nat)>, limit: Option<nat>)
    requires forall i, j :: 0 <= i < j < |full| ==> full[i].0 != full[j].0
    ensures Distinct(KeysOf(Take(full, limit)))
  {
  }

  lemma TakeKeepsDescending(full: seq<(string, nat)>, limit: Option<nat>)
    requires SortedBy(full, CountRank)
    ensures forall i, j :: 0 <= i < j < |Take(full, limit)| ==> Take(full, limit)[i].1 >= Take(full, limit)[j].1
  {
    var top := Take(full, limit);
    forall i, j | 0 <= i < j < |top|
      ensures top[i].1 >= top[j].1
    {
      assert top[i] == full[i] && top[j] == full[j];
      assert CountRank(full[i]) <= CountRank(full[j]);
    }
  }

  /** Every reported entry names a key present in the data, with the
      number of records that carry it. */
  lemma TopItemsCounts(data: seq<Vehicle>, key: Field, limit: Option<nat>)
    ensures forall e :: e in TopItemsOf(data, key, limit) ==>
              e.0 in Values(data, key) && e.1 == Occurrences(Values(data, key), e.0) && e.1 >= 1
  {
    SortedTallyCounts(data, key);
    TakeKeepsEntries(SortedTally(data, key), limit);
  }

  /** No key is reported twice. */
  lemma TopItemsDistinctKeys(data: seq<Vehicle>, key: Field, limit: Option<nat>)
    ensures Distinct(KeysOf(TopItemsOf(data, key, limit)))
  {
    SortedTallyDistinctKeys(data, key);
    TakeKeepsDistinctKeys(SortedTally(data, key), limit);
  }

  /** Counts never increase along the result. */
  lemma TopItemsDescending(data: seq<Vehicle>, key: Field, limit: Option<nat>)
    ensures forall i, j :: 0 <= i < j < |TopItemsOf(data, key, limit)| ==>
              TopItemsOf(data, key, limit)[i].1 >= TopItemsOf(data, key, limit)[j].1
  {
    TakeKeepsDescending(SortedTally(data, key), limit);
  }

  /** The result has `limit` entries, or one per distinct key when there
      are fewer. */
  lemma TopItemsLength(data: seq<Vehicle>, key: Field, limit: Option<nat>)
    ensures var distinct := |Unique(Values(data, key))|;
            |TopItemsOf(data, key, limit)| ==
              if limit.Some? && limit.value < distinct then limit.value else distinct
  {
    var vals := Values(data, key);
    var ordered := ObjectKeyOrder(Unique(vals));
    assert |ordered| == |multiset(ordered)| == |multiset(Unique(vals))| == |Unique(vals)|;
    assert |SortedTally(data, key)| == |multiset(SortedTally(data, key))| == |multiset(Tally(ordered, vals))|;
  }

  /** Without a limit every key present in the data is reported and the
      counts add up to the number of records. */
  lemma TopItemsWithoutLimit(data: seq<Vehicle>, key: Field)
    ensures forall k :: k in Values(data, key) <==> k in KeysOf(TopItemsOf(data, key, None))
    ensures Sum(TopItemsOf(data, key, None), Count) == |data|
  {
    SortedTallyComplete(data, key);
    SortedTallySum(data, key);
  }

  /** A prefix of a list sorted by descending count holds the largest counts. */
  lemma TakeKeepsLargest(full: seq<(string, nat)>, limit: Option<nat>, k: string, i: nat)
    requires SortedBy(full, CountRank)
    requires k in KeysOf(full)
    requires i < |Take(full, limit)|
    ensures k in KeysOf(Take(full, limit)) ||
            exists m :: 0 <= m < |full| && full[m].0 == k && full[m].1 <= Take(full, limit)[i].1
  {
    var top := Take(full, limit);
    var m :| 0 <= m < |full| && KeysOf(full)[m] == k;
    if m < |top| {
      assert KeysOf(top)[m] == k;
    } else {
      assert CountRank(full[i]) <= CountRank(full[m]);
      assert top[i] == full[i];
    }
  }

  /** With a limit, a key left out occurs no more often than any reported one. */
  lemma TopItemsAreTop(data: seq<Vehicle>, key: Field, limit: Option<nat>)
    ensures forall k, i :: k in Values(data, key) && 0 <= i < |TopItemsOf(data, key, limit)| ==>
              k in KeysOf(TopItemsOf(data, key, limit))
              || Occurrences(Values(data, key), k) <= TopItemsOf(data, key, limit)[i].1
  {
    var vals := Values(data, key);
    var full := SortedTally(data, key);
    var top := TopItemsOf(data, key, limit);
    SortedTallyComplete(data, key);
    SortedTallyCounts(data, key);
    forall k, i | k in vals && 0 <= i < |top|
      ensures k in KeysOf(top) || Occurrences(vals, k) <= top[i].1
    {
      TakeKeepsLargest(full, limit, k, i);
      if k !in KeysOf(top) {
        var m :| 0 <= m < |full| && full[m].0 == k && full[m].1 <= top[i].1;
        assert full[m] in full;
      }
    }
  }

  /** The number an array-index property name stands for. */
  function KeyIndex(entry: (string, nat)): int
  {
    IndexValue(entry.0)
  }

  lemma TallyKeepsKeyOrder(keys: seq<string>, vals: seq<string>)
    requires SortedBy(keys, IndexValue)
    ensures SortedBy(Tally(keys, vals), KeyIndex)
  {
  }

  lemma TakeKeepsTieOrder(full: seq<(string, nat)>, limit: Option<nat>)
    requires SortedByThen(full, CountRank, KeyIndex)
    ensures SortedByThen(Take(full, limit), CountRank, KeyIndex)
  {
    var top := Take(full, limit);
    forall i, j | 0 <= i < j < |top|
      ensures LexBefore(top[i], top[j], CountRank, KeyIndex)
    {
      assert top[i] == full[i] && top[j] == full[j];
    }
  }

  /** The year insights list years with equal counts in ascending order:
      `Object.entries` lists the year names ascending and the sort by count
      is stable. */
  lemma TopYearsTiesAscending(data: seq<Vehicle>, limit: Option<nat>)
    requires forall i :: 0 <= i < |data| ==> 0 <= data[i].year < 0xFFFF_FFFF
    ensures forall i, j ::
              (0 <= i < j < |TopItemsOf(data, YearKey, limit)| &&
               TopItemsOf(data, YearKey, limit)[i].1 == TopItemsOf(data, YearKey, limit)[j].1) ==>
              IndexValue(TopItemsOf(data, YearKey, limit)[i].0) <= IndexValue(TopItemsOf(data, YearKey, limit)[j].0)
  {
    var vals := Values(data, YearKey);
    var keys := ObjectKeyOrder(Unique(vals));
    YearTallyKeysAscending(data);
    TallyKeepsKeyOrder(keys, vals);
    SortByStable(Tally(keys, vals), CountRank, KeyIndex);
    TakeKeepsTieOrder(SortedTally(data, YearKey), limit);
    var top := TopItemsOf(data, YearKey, limit);
    forall i, j | 0 <= i < j < |top| && top[i].1 == top[j].1
      ensures IndexValue(top[i].0) <= IndexValue(top[j].0)
    {
      assert LexBefore(top[i], top[j], CountRank, KeyIndex);
    }
  }

  /** Over duplicate-free keys the tally pairs are duplicate-free too. */
  lemma TallyDistinct(keys: seq<string>, vals: seq<string>)
    requires Distinct(keys)
    ensures Distinct(Tally(keys, vals))
  {
  }

  /** The total of the counts over some keys. */
  function CountTotal(keys: seq<string>, vals: seq<string>): nat
  {
    if keys == [] then 0
    else CountTotal(keys[..|keys| - 1], vals) + Occurrences(vals, keys[|keys| - 1])
  }

  lemma {:induction false} TallySum(keys: seq<string>, vals: seq<string>)
    ensures Sum(Tally(keys, vals), Count) == CountTotal(keys, vals)
  {
    if keys != [] {
      var init := keys[..|keys| - 1];
      assert Tally(keys, vals)[..|keys| - 1] == Tally(init, vals);
      TallySum(init, vals);
    }
  }

  /** Appending a value adds, to the total, the number of keys equal to it. */
  lemma {:induction false} CountTotalAppend(keys: seq<string>, vals: seq<string>, x: string)
    ensures CountTotal(keys, vals + [x]) == CountTotal(keys, vals) + Occurrences(keys, x)
  {
    assert (vals + [x])[..|vals|] == vals;
    if keys != [] {
      CountTotalAppend(keys[..|keys| - 1], vals, x);
    }
  }

  lemma {:induction false} CountTotalEmpty(keys: seq<string>)
    ensures CountTotal(keys, []) == 0
  {
    if keys != [] {
      CountTotalEmpty(keys[..|keys| - 1]);
    }
  }

  /** Counting over duplicate-free keys that cover every value counts every
      value once. */
  lemma {:induction false} CountTotalCovering(keys: seq<string>, vals: seq<string>)
    requires Distinct(keys)
    requires forall x :: x in vals ==> x in keys
    ensures CountTotal(keys, vals) == |vals|
  {
    if vals == [] {
      CountTotalEmpty(keys);
    } else {
      var init, x := vals[..|vals| - 1], vals[|vals| - 1];
      assert vals == init + [x];
      CountTotalCovering(keys, init);
      CountTotalAppend(keys, init, x);
      DistinctOccurrences(keys, x);
    }
  }

  lemma TallyCountsAll(keys: seq<string>, vals: seq<string>)
    requires Distinct(keys)
    requires forall x :: x in vals ==> x in keys
    ensures Sum(Tally(keys, vals), Count) == |vals|
  {
    TallySum(keys, vals);
    CountTotalCovering(keys, vals);
  }

  // ---------------------------------------------------------------------
  // Dropdown options (populateFilters)
  // ---------------------------------------------------------------------

  function Years(data: seq<Vehicle>): (years: seq<int>)
    ensures |years| == |data|
    ensures forall i :: 0 <= i < |data| ==> years[i] == data[i].year
  {
    seq(|data|, i requires 0 <= i < |data| => data[i].year)
  }

  function YearRank(year: int): int
  {
    year
  }

  /** `[...new Set(data.map(item => item.vehicleType))]`. */
  function TypeOptions(data: seq<Vehicle>): seq<string>
  {
    Unique(Values(data, VehicleTypeKey))
  }

  /** `[...new Set(data.map(item => item.manufacturer))]`. */
  function ManufacturerOptions(data: seq<Vehicle>): seq<string>
  {
    Unique(Values(data, ManufacturerKey))
  }

  /** `[...new Set(data.map(item => item.year))].sort()`. */
  function YearOptions(data: seq<Vehicle>): seq<int>
  {
    SortBy(Unique(Years(data)), YearRank)
  }

  /** The type list holds each type present in the data exactly once. */
  lemma TypeOptionsPresent(data: seq<Vehicle>)
    ensures Distinct(TypeOptions(data))
    ensures forall t :: t in TypeOptions(data) <==>
              exists i :: 0 <= i < |data| && data[i].vehicleType == t
  {
    var vals := Values(data, VehicleTypeKey);
    assert TypeOptions(data) == Unique(vals);
    forall t
      ensures t in vals <==> exists i :: 0 <= i < |data| && data[i].vehicleType == t
    {
      if t in vals {
        var i :| 0 <= i < |vals| && vals[i] == t;
        assert data[i].vehicleType == t;
      }
      if exists i :: 0 <= i < |data| && data[i].vehicleType == t {
        var i :| 0 <= i < |data| && data[i].vehicleType == t;
        assert vals[i] == t;
      }
    }
  }

  /** The type list follows the order in which the types first appear. */
  lemma TypeOptionsInFirstAppearanceOrder(data: seq<Vehicle>)
    ensures var opts, vals := TypeOptions(data), Values(data, VehicleTypeKey);
            forall i, j :: 0 <= i < j < |opts| ==> IndexOf(vals, opts[i]) < IndexOf(vals, opts[j])
  {
    UniqueInFirstOccurrenceOrder(Values(data, VehicleTypeKey));
  }

  /** The manufacturer list holds each manufacturer present in the data exactly once. */
  lemma ManufacturerOptionsPresent(data: seq<Vehicle>)
    ensures Distinct(ManufacturerOptions(data))
    ensures forall m :: m in ManufacturerOptions(data) <==>
              exists i :: 0 <= i < |data| && data[i].manufacturer == m
  {
    var vals := Values(data, ManufacturerKey);
    assert ManufacturerOptions(data) == Unique(vals);
    forall m
      ensures m in vals <==> exists i :: 0 <= i < |data| && data[i].manufacturer == m
    {
      if m in vals {
        var i :| 0 <= i < |vals| && vals[i] == m;
        assert data[i].manufacturer == m;
      }
      if exists i :: 0 <= i < |data| && data[i].manufacturer == m {
        var i :| 0 <= i < |data| && data[i].manufacturer == m;
        assert vals[i] == m;
      }
    }
  }

  /** The manufacturer list follows the order in which the manufacturers first appear. */
  lemma ManufacturerOptionsInFirstAppearanceOrder(data: seq<Vehicle>)
    ensures var opts, vals := ManufacturerOptions(data), Values(data, ManufacturerKey);
            forall i, j :: 0 <= i < j < |opts| ==> IndexOf(vals, opts[i]) < IndexOf(vals, opts[j])
  {
    UniqueInFirstOccurrenceOrder(Values(data, ManufacturerKey));
  }

  /** The year list holds exactly the years present in the data. */
  lemma YearOptionsPresent(data: seq<Vehicle>)
    ensures forall y :: y in YearOptions(data) <==> exists i :: 0 <= i < |data| && data[i].year == y
  {
    var ys := Years(data);
    SortByKeepsMembers(Unique(ys), YearRank);
    assert YearOptions(data) == SortBy(Unique(ys), YearRank);
    forall y | y in ys
      ensures exists i :: 0 <= i < |data| && data[i].year == y
    {
      var i :| 0 <= i < |ys| && ys[i] == y;
      assert data[i].year == y;
    }
  }

  /** A sorted list without duplicates is strictly ascending. */
  lemma SortedDistinctAscending(s: seq<int>)
    requires SortedBy(s, YearRank) && Distinct(s)
    ensures forall i, j :: 0 <= i < j < |s| ==> s[i] < s[j]
  {
    forall i, j | 0 <= i < j < |s|
      ensures s[i] < s[j]
    {
      assert YearRank(s[i]) <= YearRank(s[j]);
    }
  }

  /** The year list is strictly ascending, so no year appears twice. */
  lemma YearOptionsAscending(data: seq<Vehicle>)
    ensures forall i, j :: 0 <= i < j < |YearOptions(data)| ==>
              YearOptions(data)[i] < YearOptions(data)[j]
  {
    var years := YearOptions(data);
    PermutationKeepsDistinct(Unique(Years(data)), years);
    SortedDistinctAscending(years);
  }

  // ---------------------------------------------------------------------
  // Pages (updateTable, updatePagination, previousPage, nextPage)
  // ---------------------------------------------------------------------

  const RowsPerPage := 10

  /** `Math.ceil(n / rowsPerPage)`. */
  function TotalPages(n: nat): (pages: nat)
    ensures n <= pages * RowsPerPage
    ensures pages == 0 || (pages - 1) * RowsPerPage < n
  {
    (n + RowsPerPage - 1) / RowsPerPage
  }

  /** The largest value the page cursor takes: `nextPage` stops at the last
      page, and the cursor starts at 1 even when there is no page at all. */
  function MaxPage(n: nat): (m: nat)
    ensures m >= 1 && m >= TotalPages(n)
    ensures n > 0 ==> m == TotalPages(n)
  {
    if TotalPages(n) == 0 then 1 else TotalPages(n)
  }

  /** How `Array.prototype.slice` resolves an integer argument: a negative
      one counts from the end, and the result is clamped to the length. */
  function RelativeIndex(k: int, len: nat): (i: nat)
    ensures i <= len
    ensures 0 <= k <= len ==> i == k
    ensures k > len ==> i == len
    ensures k < 0 ==> i == (if len + k < 0 then 0 else len + k)
  {
    if k < 0 then (if len + k < 0 then 0 else len + k)
    else if k < len then k else len
  }

  /** `s.slice(start, end)`. */
  function Slice<T>(s: seq<T>, start: int, end: int): seq<T>
  {
    var from, to := RelativeIndex(start, |s|), RelativeIndex(end, |s|);
    if from < to then s[from..to] else []
  }

  function Min(a: int, b: int): int
  {
    if a < b then a else b
  }

  /** The rows `updateTable` shows for page `page` of `rows`. */
  function PageSlice<T>(rows: seq<T>, page: int): (r: seq<T>)
    ensures |r| <= RowsPerPage
    ensures page >= 1 ==>
              r == rows[Min((page - 1) * RowsPerPage, |rows|)..Min(page * RowsPerPage, |rows|)]
    ensures 1 <= page <= TotalPages(|rows|) ==> r != []
  {
    var start := (page - 1) * RowsPerPage;
    Slice(rows, start, start + RowsPerPage)
  }

  /** Pages 1 to `k` shown one after the other. */
  function PagesUpTo<T>(rows: seq<T>, k: nat): seq<T>
  {
    if k == 0 then [] else PagesUpTo(rows, k - 1) + PageSlice(rows, k)
  }

  /** Consecutive pages follow on from each other without overlap or gap. */
  lemma {:induction false} PagesUpToIsPrefix<T>(rows: seq<T>, k: nat)
    ensures PagesUpTo(rows, k) == rows[..Min(k * RowsPerPage, |rows|)]
  {
    if k > 0 {
      PagesUpToIsPrefix(rows, k - 1);
      var a, b := Min((k - 1) * RowsPerPage, |rows|), Min(k * RowsPerPage, |rows|);
      assert PagesUpTo(rows, k) == rows[..a] + PageSlice(rows, k);
      assert PageSlice(rows, k) == rows[a..b];
      assert rows[..a] + rows[a..b] == rows[..b];
    }
  }

  /** Paging through every page shows every row exactly once, in order. */
  lemma PagesCoverRows<T>(rows: seq<T>)
    ensures PagesUpTo(rows, TotalPages(|rows|)) == rows
  {
    PagesUpToIsPrefix(rows, TotalPages(|rows|));
  }

  /** `previousPage`: back one page unless on the first. */
  function PreviousPageStep(page: int): (next: int)
    ensures next <= page && page - next <= 1
    ensures next != page <==> page > 1
  {
    if page > 1 then page - 1 else page
  }

  /** `nextPage`: forward one page unless on the last. */
  function NextPageStep(page: int, n: nat): (next: int)
    ensures next >= page && next - page <= 1
    ensures next != page <==> page < TotalPages(n)
  {
    if page < TotalPages(n) then page + 1 else page
  }

  /** Both steps keep the cursor within `1..MaxPage(n)`. */
  lemma PageStepsStayInRange(page: int, n: nat)
    requires 1 <= page <= MaxPage(n)
    ensures 1 <= PreviousPageStep(page) <= MaxPage(n)
    ensures 1 <= NextPageStep(page, n) <= MaxPage(n)
  {
  }

  /** What `updatePagination` writes: the label's two numbers and the two
      buttons' `disabled` flags. */
  datatype PageControls = PageControls(page: int, totalPages: nat, prevDisabled: bool, nextDisabled: bool)

  /** `updatePagination` as written: Next is disabled only on the page whose
      number equals the page count. */
  function PaginationAsWritten(page: int, n: nat): (c: PageControls)
    ensures c.page == page && c.totalPages == TotalPages(n)
  {
    PageControls(page, TotalPages(n), page == 1, page == TotalPages(n))
  }

  /** On a non-empty view the buttons as written are disabled exactly when
      clicking them would do nothing. */
  lemma PaginationAsWrittenMatchesSteps(page: int, n: nat)
    requires n > 0 && 1 <= page <= TotalPages(n)
    ensures PaginationAsWritten(page, n).prevDisabled <==> PreviousPageStep(page) == page
    ensures PaginationAsWritten(page, n).nextDisabled <==> NextPageStep(page, n) == page
  {
  }

  /** On an empty view the page count is 0 while the cursor is 1, so the
      Next button stays enabled although clicking it does nothing. */
  lemma NextEnabledOnEmptyView()
    ensures TotalPages(0) == 0
    ensures !PaginationAsWritten(1, 0).nextDisabled
    ensures NextPageStep(1, 0) == 1
  {
  }

  /** The pagination controls with Next disabled whenever no later page
      exists. */
  function Pagination(page: int, n: nat): (c: PageControls)
    ensures c.page == page && c.totalPages == TotalPages(n)
    ensures c.prevDisabled <==> page == 1
    ensures n > 0 && 1 <= page <= TotalPages(n) ==> c == PaginationAsWritten(page, n)
  {
    PageControls(page, TotalPages(n), page == 1, page >= TotalPages(n))
  }

  /** In every reachable state, empty view included, each button is
      disabled exactly when clicking it would do nothing. */
  lemma PaginationMatchesSteps(page: int, n: nat)
    requires 1 <= page <= MaxPage(n)
    ensures Pagination(page, n).prevDisabled <==> PreviousPageStep(page) == page
    ensures Pagination(page, n).nextDisabled <==> NextPageStep(page, n) == page
  {
  }

  // ---------------------------------------------------------------------
  // The dashboard state
  // ---------------------------------------------------------------------

  /** `EVDashboard`'s data-view fields. The three dropdowns' `value`s are
      the string fields `vehicleTypeFilter`, `manufacturerFilter` and
      `yearFilter`. */
  class EVDashboard {
    var data: seq<Vehicle>
    var filteredData: seq<Vehicle>
    var currentPage: int
    var darkMode: bool
    var searchTerm: string
    var vehicleTypeFilter: string
    var manufacturerFilter: string
    var yearFilter: string

    /** The page cursor is within range and the view is an order-preserving
        selection of the records. */
    ghost predicate Valid()
      reads this
    {
      && 1 <= currentPage <= MaxPage(|filteredData|)
      && IsSubsequence(filteredData, data)
    }

    function CurrentFilters(): (f: Filters)
      reads this
    {
      Filters(vehicleTypeFilter, manufacturerFilter, yearFilter, searchTerm)
    }

    /** The constructor followed by `loadData`: `generateData(1000)`, with the
        draws, the ids and the current year supplied by the caller, then the
        whole data set as the view. */
    constructor (draws: seq<Draws>, ids: seq<string>, currentYear: int)
      requires DefaultCount <= |draws| && DefaultCount <= |ids|
      requires forall i :: 0 <= i < DefaultCount ==> ValidDraws(draws[i])
      ensures Valid()
      ensures |data| == DefaultCount && Generated(data, draws, ids, currentYear)
      ensures filteredData == data && currentPage == 1
      ensures !darkMode && searchTerm == ""
      ensures vehicleTypeFilter == "" && manufacturerFilter == "" && yearFilter == ""
    {
      var generated := GenerateData(DefaultCount, draws, ids, currentYear);
      SubsequenceReflexive(generated);
      data := generated;
      filteredData := generated;
      currentPage := 1;
      darkMode := false;
      searchTerm := "";
      vehicleTypeFilter := "";
      manufacturerFilter := "";
      yearFilter := "";
    }

    /** `applyFilters`: the view becomes the records matching the dropdowns
        and the search term, and the cursor goes back to page 1. */
    method ApplyFilters()
      modifies this`filteredData, this`currentPage
      ensures filteredData == FilterRecords(data, CurrentFilters())
      ensures currentPage == 1
      ensures Valid()
    {
      filteredData := FilterRecords(data, CurrentFilters());
      currentPage := 1;
      FilterIsSubsequence(data, CurrentFilters());
    }

    /** A `change` event on a dropdown: its value becomes `value`, then
        `applyFilters` runs. */
    method SelectOption(dropdown: Field, value: string)
      modifies this`vehicleTypeFilter, this`manufacturerFilter, this`yearFilter
      modifies this`filteredData, this`currentPage
      ensures vehicleTypeFilter == if dropdown == VehicleTypeKey then value else old(vehicleTypeFilter)
      ensures manufacturerFilter == if dropdown == ManufacturerKey then value else old(manufacturerFilter)
      ensures yearFilter == if dropdown == YearKey then value else old(yearFilter)
      ensures filteredData == FilterRecords(data, CurrentFilters())
      ensures currentPage == 1
      ensures Valid()
    {
      match dropdown {
        case VehicleTypeKey => vehicleTypeFilter := value;
        case ManufacturerKey => manufacturerFilter := value;
        case YearKey => yearFilter := value;
      }
      ApplyFilters();
    }

    /** `resetFilters`: the dropdowns are cleared and the view is the whole
        data set again; the search term is left as it was. */
    method ResetFilters()
      modifies this`vehicleTypeFilter, this`manufacturerFilter, this`yearFilter
      modifies this`filteredData, this`currentPage
      ensures vehicleTypeFilter == "" && manufacturerFilter == "" && yearFilter == ""
      ensures filteredData == data && currentPage == 1
      ensures searchTerm == old(searchTerm)
      ensures Valid()
    {
      vehicleTypeFilter := "";
      manufacturerFilter := "";
      yearFilter := "";
      filteredData := data;
      currentPage := 1;
      SubsequenceReflexive(data);
    }

    /** `previousPage`. */
    method PreviousPage()
      requires Valid()
      modifies this`currentPage
      ensures currentPage == PreviousPageStep(old(currentPage))
      ensures Valid()
    {
      PageStepsStayInRange(currentPage, |filteredData|);
      if currentPage > 1 {
        currentPage := currentPage - 1;
      }
    }

    /** `nextPage`. */
    method NextPage()
      requires Valid()
      modifies this`currentPage
      ensures currentPage == NextPageStep(old(currentPage), |filteredData|)
      ensures Valid()
    {
      PageStepsStayInRange(currentPage, |filteredData|);
      var totalPages := TotalPages(|filteredData|);
      if currentPage < totalPages {
        currentPage := currentPage + 1;
      }
    }

    /** `toggleTheme`: the flag flips, so two toggles restore it. */
    method ToggleTheme()
      modifies this`darkMode
      ensures darkMode == !old(darkMode)
    {
      darkMode := !darkMode;
    }

    /** `handleSearch`: the lower-cased input becomes the search term, then
        `applyFilters` runs. */
    method HandleSearch(input: string)
      modifies this`searchTerm, this`filteredData, this`currentPage
      ensures searchTerm == LowerAscii(input)
      ensures filteredData == FilterRecords(data, CurrentFilters())
      ensures currentPage == 1
      ensures Valid()
    {
      searchTerm := LowerAscii(input);
      ApplyFilters();
    }

    /** The rows `updateTable` renders: at most one page, never empty while
        the view is not, and taken from the view. */
    function PageData(): (rows: seq<Vehicle>)
      reads this
      requires Valid()
      ensures |rows| <= RowsPerPage
      ensures filteredData != [] ==> rows != []
      ensures forall v :: v in rows ==> v in filteredData
    {
      PageSlice(filteredData, currentPage)
    }

    /** The pagination controls `updatePagination` renders for the current
        page, with its `===` test: on a non-empty view a button is disabled
        exactly when clicking it would do nothing, while on an empty view
        Next stays enabled. */
    function Controls(): (c: PageControls)
      reads this
      requires Valid()
      ensures c.page == currentPage && c.totalPages == TotalPages(|filteredData|)
      ensures c.prevDisabled <==> PreviousPageStep(currentPage) == currentPage
      ensures filteredData != [] ==> (c.nextDisabled <==> NextPageStep(currentPage, |filteredData|) == currentPage)
      ensures filteredData == [] ==> !c.nextDisabled
    {
      PaginationAsWritten(currentPage, |filteredData|)
    }
  }
}
