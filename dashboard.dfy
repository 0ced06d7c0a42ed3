/**
 * The analytics view of the dashboard: the statistics memo (total, leads of
 * the current month, occurrence counts, most frequent key), the filtered lead
 * list and the two chart series.
 */
module Dashboard {
  import opened Wrappers
  import opened Seqs
  import opened Strings
  import opened Types

  /** A `Record<string, number>` built by counting, as its entries in insertion order. */
  type Counts = seq<Entry>

  function Keys(m: Counts): (ks: seq<string>)
    ensures |ks| == |m| && forall i :: 0 <= i < |m| ==> ks[i] == m[i].name
  {
    seq(|m|, i requires 0 <= i < |m| => m[i].name)
  }

  /** No key twice and every stored count positive, so `acc[key] || 0` only falls back for absent keys. */
  predicate WellFormed(m: Counts) {
    (forall i, j :: 0 <= i < j < |m| ==> m[i].name != m[j].name)
    && (forall i :: 0 <= i < |m| ==> m[i].value >= 1)
  }

  /** `acc[k] || 0`: the stored count, or 0 for a key not present. */
  function Get(m: Counts, k: string): int {
    var i := FirstIndex(Keys(m), k);
    if i < |m| then m[i].value else 0
  }

  /**
   * `acc[key] = (acc[key] || 0) + 1`: an existing key keeps its place, a new
   * key is appended after all others.
   */
  function Increment(m: Counts, key: string): Counts {
    var i := FirstIndex(Keys(m), key);
    var v := Get(m, key) + 1;
    if i < |m| then m[i := Entry(key, v)] else m + [Entry(key, v)]
  }

  /** The `reduce` that counts occurrences, from the empty object. */
  function Tally(arr: seq<string>): Counts
    decreases |arr|
  {
    if arr == [] then [] else Increment(Tally(arr[..|arr| - 1]), arr[|arr| - 1])
  }

  function Sum(m: Counts): int
    decreases |m|
  {
    if m == [] then 0 else Sum(m[..|m| - 1]) + m[|m| - 1].value
  }

  /** `countMap(arr)`: the object is updated in place, one element at a time. */
  method CountMap(arr: seq<string>) returns (m: Counts)
    ensures m == Tally(arr)
    ensures WellFormed(m)
  {
    m := [];
    for i := 0 to |arr|
      invariant m == Tally(arr[..i])
      invariant WellFormed(m)
    {
      assert arr[..i + 1][..i] == arr[..i];
      IncrementWellFormed(m, arr[i]);
      m := Increment(m, arr[i]);
    }
    assert arr[..|arr|] == arr;
  }

  lemma IncrementWellFormed(m: Counts, key: string)
    requires WellFormed(m)
    ensures WellFormed(Increment(m, key))
    ensures forall k :: Get(Increment(m, key), k) == Get(m, k) + (if k == key then 1 else 0)
    ensures Keys(m) <= Keys(Increment(m, key))
  {
    var r := Increment(m, key);
    var i := FirstIndex(Keys(m), key);
    forall k
      ensures Get(r, k) == Get(m, k) + (if k == key then 1 else 0)
    {
      var j := FirstIndex(Keys(m), k);
      var jr := FirstIndex(Keys(r), k);
      if i < |m| {
        assert Keys(r) == Keys(m);
      } else {
        assert Keys(r) == Keys(m) + [key];
        FirstIndexAppend(Keys(m), key, k);
      }
    }
  }

  /** Each key is counted exactly as often as it occurs. */
  lemma {:induction false} TallyCounts(arr: seq<string>)
    ensures WellFormed(Tally(arr))
    ensures forall k :: Get(Tally(arr), k) == multiset(arr)[k]
    decreases |arr|
  {
    if arr != [] {
      var init := arr[..|arr| - 1];
      TallyCounts(init);
      IncrementWellFormed(Tally(init), arr[|arr| - 1]);
      assert arr == init + [arr[|arr| - 1]];
    }
  }

  /** The keys are exactly the distinct elements of the input. */
  lemma {:induction false} TallyKeys(arr: seq<string>)
    ensures forall k :: k in Keys(Tally(arr)) <==> k in arr
    decreases |arr|
  {
    if arr != [] {
      var init := arr[..|arr| - 1];
      var x := arr[|arr| - 1];
      TallyKeys(init);
      var m := Tally(init);
      var i := FirstIndex(Keys(m), x);
      if i < |m| {
        assert Keys(Tally(arr)) == Keys(m);
      } else {
        assert Keys(Tally(arr)) == Keys(m) + [x];
      }
      assert arr == init + [x];
    }
  }

  /** The keys of m appear in the order in which they first occur in arr. */
  predicate FirstOccurrenceOrder(arr: seq<string>, m: Counts) {
    forall i, j :: 0 <= i < j < |m| ==> FirstIndex(arr, m[i].name) < FirstIndex(arr, m[j].name)
  }

  /** Keys appear in the order of their first occurrence in the input. */
  lemma {:induction false} TallyOrder(arr: seq<string>)
    ensures FirstOccurrenceOrder(arr, Tally(arr))
    decreases |arr|
  {
    if arr != [] {
      var init := arr[..|arr| - 1];
      var x := arr[|arr| - 1];
      TallyOrder(init);
      TallyKeys(init);
      var m := Tally(init);
      var r := Tally(arr);
      assert arr == init + [x];
      var p := FirstIndex(Keys(m), x);
      forall k | k in init
        ensures FirstIndex(arr, k) == FirstIndex(init, k)
      {
        FirstIndexAppend(init, x, k);
      }
      if p < |m| {
        assert Keys(r) == Keys(m);
        forall i | 0 <= i < |r|
          ensures r[i].name == m[i].name && m[i].name in init
        {
          assert m[i].name == Keys(m)[i];
        }
      } else {
        assert r == m + [Entry(x, 1)];
        assert x !in init;
        FirstIndexAppend(init, x, x);
        forall i, j | 0 <= i < j < |r|
          ensures FirstIndex(arr, r[i].name) < FirstIndex(arr, r[j].name)
        {
          assert r[i].name == m[i].name == Keys(m)[i];
          assert m[i].name in init;
          assert FirstIndex(arr, m[i].name) == FirstIndex(init, m[i].name) < |init|;
          if j == |m| {
            assert r[j].name == x;
            assert FirstIndex(arr, x) == |init|;
          } else {
            assert r[j].name == m[j].name == Keys(m)[j];
            assert m[j].name in init;
            assert FirstIndex(init, m[i].name) < FirstIndex(init, m[j].name);
          }
        }
      }
    }
  }

  lemma {:induction false} SumUpdate(m: Counts, i: int, e: Entry)
    requires 0 <= i < |m|
    ensures Sum(m[i := e]) == Sum(m) - m[i].value + e.value
    decreases |m|
  {
    if i < |m| - 1 {
      SumUpdate(m[..|m| - 1], i, e);
      assert m[i := e][..|m| - 1] == m[..|m| - 1][i := e];
    } else {
      assert m[i := e][..|m| - 1] == m[..|m| - 1];
    }
  }

  /** The counts add up to the number of elements counted. */
  lemma {:induction false} TallySum(arr: seq<string>)
    ensures Sum(Tally(arr)) == |arr|
    decreases |arr|
  {
    if arr != [] {
      var init := arr[..|arr| - 1];
      var x := arr[|arr| - 1];
      TallySum(init);
      TallyCounts(init);
      var m := Tally(init);
      var i := FirstIndex(Keys(m), x);
      if i < |m| {
        SumUpdate(m, i, Entry(x, Get(m, x) + 1));
      } else {
        assert (m + [Entry(x, 1)])[..|m|] == m;
      }
    }
  }

  /** The position of the first entry whose count is maximal. */
  function TopIndex(m: Counts): (t: nat)
    requires |m| > 0
    ensures t < |m|
    ensures forall j :: 0 <= j < |m| ==> m[j].value <= m[t].value
    ensures forall j :: 0 <= j < t ==> m[j].value < m[t].value
    decreases |m|
  {
    if |m| == 1 then 0
    else
      var t := TopIndex(m[..|m| - 1]);
      if m[|m| - 1].value > m[t].value then |m| - 1 else t
  }

  /**
   * s is m sorted by descending count with a stable sort: the same entries,
   * counts never increasing, and entries of equal count in their order in m.
   */
  ghost predicate StableDescendingSort(m: Counts, s: Counts) {
    multiset(s) == multiset(m)
    && (forall k, l :: 0 <= k < l < |s| ==> s[l].value <= s[k].value)
    && (forall k, l :: 0 <= k < l < |s| && s[k].value == s[l].value ==> FirstIndex(m, s[k]) < FirstIndex(m, s[l]))
  }

  /** Any stable descending sort puts the first maximal entry in front. */
  lemma StableSortHead(m: Counts, s: Counts)
    requires |m| > 0 && StableDescendingSort(m, s)
    ensures s[0] == m[TopIndex(m)]
  {
    var t := TopIndex(m);
    assert m[t] in multiset(s);
    var k :| 0 <= k < |s| && s[k] == m[t];
    assert s[0] in multiset(m);
  }

  /**
   * `getTop`: the key of the first entry after sorting by descending count,
   * or "N/A" when there is none or the key is the falsy empty string.
   */
  function GetTop(m: Counts): (r: string)
    ensures |m| == 0 ==> r == "N/A"
    ensures |m| > 0 && m[TopIndex(m)].name != "" ==> r == m[TopIndex(m)].name
    ensures |m| > 0 && m[TopIndex(m)].name == "" ==> r == "N/A"
  {
    if |m| == 0 then "N/A"
    else
      var key := m[TopIndex(m)].name;
      if key == "" then "N/A" else key
  }

  /** What the counting loop establishes about m as a tally of arr. */
  ghost predicate Counted(arr: seq<string>, m: Counts) {
    WellFormed(m)
    && (forall k :: Get(m, k) == multiset(arr)[k])
    && (forall k :: k in Keys(m) <==> k in arr)
    && FirstOccurrenceOrder(arr, m)
  }

  lemma TallyCounted(arr: seq<string>)
    ensures Counted(arr, Tally(arr))
  {
    TallyCounts(arr);
    TallyKeys(arr);
    TallyOrder(arr);
  }

  /** Looking up the key of an entry finds that entry's count. */
  lemma GetAt(m: Counts, i: int)
    requires WellFormed(m) && 0 <= i < |m|
    ensures Get(m, m[i].name) == m[i].value
  {
    assert Keys(m)[i] == m[i].name;
  }

  /** The first maximal entry holds a highest occurrence count. */
  lemma TopCountMaximal(arr: seq<string>, m: Counts)
    requires |m| > 0 && Counted(arr, m)
    ensures forall k :: multiset(arr)[k] <= multiset(arr)[m[TopIndex(m)].name]
  {
    var t := TopIndex(m);
    GetAt(m, t);
    forall k
      ensures multiset(arr)[k] <= multiset(arr)[m[t].name]
    {
      var j := FirstIndex(Keys(m), k);
      if j < |m| {
        GetAt(m, j);
      }
    }
  }

  /** Among equally frequent values, the first maximal entry occurs first. */
  lemma TopFirstAmongTies(arr: seq<string>, m: Counts)
    requires |m| > 0 && Counted(arr, m)
    ensures var r := m[TopIndex(m)].name;
      forall k :: k in arr && multiset(arr)[k] == multiset(arr)[r] ==> FirstIndex(arr, r) <= FirstIndex(arr, k)
  {
    var t := TopIndex(m);
    var r := m[t].name;
    GetAt(m, t);
    forall k | k in arr && multiset(arr)[k] == multiset(arr)[r]
      ensures FirstIndex(arr, r) <= FirstIndex(arr, k)
    {
      assert k in Keys(m);
      var j := FirstIndex(Keys(m), k);
      GetAt(m, j);
      if j < t {
        assert false;
      } else if j > t {
        assert FirstIndex(arr, m[t].name) < FirstIndex(arr, m[j].name);
      }
    }
  }

  /**
   * On counted input, the top key is a most frequent element, and among the
   * equally frequent ones the one that occurs first.
   */
  lemma GetTopMostFrequent(arr: seq<string>)
    ensures arr == [] ==> GetTop(Tally(arr)) == "N/A"
    ensures var r := GetTop(Tally(arr));
      r != "N/A" ==>
        r in arr
        && (forall k :: multiset(arr)[k] <= multiset(arr)[r])
        && (forall k :: k in arr && multiset(arr)[k] == multiset(arr)[r] ==> FirstIndex(arr, r) <= FirstIndex(arr, k))
  {
    var m := Tally(arr);
    var r := GetTop(m);
    if r != "N/A" {
      var t := TopIndex(m);
      assert r == m[t].name && r == Keys(m)[t];
      TallyCounted(arr);
      TopCountMaximal(arr, m);
      TopFirstAmongTies(arr, m);
    }
  }

  /** `leads.map(l => l.pais)`, `l.interes` and `l.estado`. */
  function Countries(leads: seq<Lead>): seq<string> {
    seq(|leads|, i requires 0 <= i < |leads| => leads[i].pais)
  }

  function Interests(leads: seq<Lead>): seq<string> {
    seq(|leads|, i requires 0 <= i < |leads| => leads[i].interes)
  }

  function Statuses(leads: seq<Lead>): seq<string> {
    seq(|leads|, i requires 0 <= i < |leads| => leads[i].estado)
  }

  /**
   * A lead registered in the current month: `new Date(fecha_registro).getMonth()`
   * is given as `monthOf`, None standing for an invalid date (NaN).
   */
  function InMonth(monthOf: string -> Option<int>, currentMonth: int): Lead -> bool {
    (l: Lead) => monthOf(l.fecha_registro) == Some(currentMonth)
  }

  /** `leadsMes`: how many leads were registered in the current month, of any year. */
  function LeadsMes(leads: seq<Lead>, monthOf: string -> Option<int>, currentMonth: int): (n: int)
    ensures 0 <= n <= |leads|
  {
    |Filter(leads, InMonth(monthOf, currentMonth))|
  }

  lemma LeadsMesCounts(leads: seq<Lead>, monthOf: string -> Option<int>, currentMonth: int)
    ensures LeadsMes(leads, monthOf, currentMonth)
      == |set i | 0 <= i < |leads| && monthOf(leads[i].fecha_registro) == Some(currentMonth)|
  {
    var p := InMonth(monthOf, currentMonth);
    FilterLength(leads, p);
    assert IndicesWhere(leads, p) == set i | 0 <= i < |leads| && monthOf(leads[i].fecha_registro) == Some(currentMonth);
  }

  /** The statistics memo, with the month of `new Date()` passed in. */
  method ComputeStats(leads: seq<Lead>, monthOf: string -> Option<int>, currentMonth: int)
    returns (stats: DashboardStats)
    ensures stats.totalLeads == |leads|
    ensures stats.leadsMes == LeadsMes(leads, monthOf, currentMonth)
    ensures stats.leadsPorEstado == Tally(Statuses(leads))
    ensures stats.topPais == GetTop(Tally(Countries(leads)))
    ensures stats.interesComun == GetTop(Tally(Interests(leads)))
  {
    var total := |leads|;
    var leadsMes := LeadsMes(leads, monthOf, currentMonth);
    var paises := CountMap(Countries(leads));
    var intereses := CountMap(Interests(leads));
    var estados := CountMap(Statuses(leads));
    stats := DashboardStats(total, estados, GetTop(paises), GetTop(intereses), leadsMes);
  }

  /** The search box: name and country ignore ASCII case, the phone number is matched as typed. */
  predicate MatchesSearch(l: Lead, term: string) {
    Contains(ToLower(l.nombre), ToLower(term))
    || Contains(l.telefono, term)
    || Contains(ToLower(l.pais), ToLower(term))
  }

  /** The status drop-down: 'Todos' lets every lead through, any other value must match exactly. */
  predicate MatchesFilter(l: Lead, filterEstado: string) {
    filterEstado == "Todos" || l.estado == filterEstado
  }

  function Keep(term: string, filterEstado: string): Lead -> bool {
    (l: Lead) => MatchesSearch(l, term) && MatchesFilter(l, filterEstado)
  }

  function FilteredLeads(leads: seq<Lead>, term: string, filterEstado: string): (r: seq<Lead>)
    ensures forall i :: 0 <= i < |r| ==> MatchesSearch(r[i], term) && MatchesFilter(r[i], filterEstado)
  {
    Filter(leads, Keep(term, filterEstado))
  }

  /**
   * The filtered list keeps the leads' order and keeps every matching lead,
   * as often as it occurs, and no other.
   */
  lemma FilteredLeadsExact(leads: seq<Lead>, term: string, filterEstado: string, l: Lead)
    ensures IsSubsequence(FilteredLeads(leads, term, filterEstado), leads)
    ensures multiset(FilteredLeads(leads, term, filterEstado))[l]
      == if MatchesSearch(l, term) && MatchesFilter(l, filterEstado) then multiset(leads)[l] else 0
  {
    FilterIsSubsequence(leads, Keep(term, filterEstado));
    FilterMultiset(leads, Keep(term, filterEstado), l);
  }

  /** With an empty search box and 'Todos', every lead is listed. */
  lemma FilterShowsAll(leads: seq<Lead>)
    ensures FilteredLeads(leads, "", "Todos") == leads
  {
    forall i | 0 <= i < |leads|
      ensures Keep("", "Todos")(leads[i])
    {
      ContainsEmpty(ToLower(leads[i].nombre));
    }
    FilterAll(leads, Keep("", "Todos"));
  }

  /** What the search predicate means, occurrence by occurrence. */
  lemma MatchesSearchIff(l: Lead, term: string)
    ensures MatchesSearch(l, term) <==>
      (exists i :: OccursAt(ToLower(l.nombre), ToLower(term), i))
      || (exists i :: OccursAt(l.telefono, term, i))
      || (exists i :: OccursAt(ToLower(l.pais), ToLower(term), i))
  {
    ContainsIff(ToLower(l.nombre), ToLower(term));
    ContainsIff(l.telefono, term);
    ContainsIff(ToLower(l.pais), ToLower(term));
  }

  /**
   * A match on the name or the country survives any change of case in the
   * search term; only the telephone is compared as typed.
   */
  lemma SearchIgnoresCase(l: Lead, t1: string, t2: string)
    requires SameUpToCase(t1, t2)
    ensures MatchesSearch(l, t1) && !Contains(l.telefono, t1) ==> MatchesSearch(l, t2)
  {
    SameUpToCaseIff(t1, t2);
  }

  /** `chartDataInteres`: one `{name, value}` per distinct interest. */
  method ChartDataInteres(leads: seq<Lead>) returns (data: seq<Entry>)
    ensures data == Tally(Interests(leads))
  {
    data := CountMap(Interests(leads));
  }

  /** The interest series has one point per distinct interest, first occurrence first, summing to the lead count. */
  lemma InteresSeries(leads: seq<Lead>)
    ensures var data := Tally(Interests(leads));
      (forall k :: k in Keys(data) <==> k in Interests(leads))
      && (forall i, j :: 0 <= i < j < |data| ==> data[i].name != data[j].name)
      && (forall k :: Get(data, k) == multiset(Interests(leads))[k])
      && Sum(data) == |leads|
      && FirstOccurrenceOrder(Interests(leads), data)
  {
    TallyKeys(Interests(leads));
    TallyCounts(Interests(leads));
    TallySum(Interests(leads));
    TallyOrder(Interests(leads));
  }

  datatype CountryBar = CountryBar(name: string, count: int)

  /** `Object.entries(counts).map(([name, count]) => ({ name, count })).slice(0, 5)`. */
  function CountryBars(counts: Counts): (bars: seq<CountryBar>)
    ensures |bars| == if |counts| < 5 then |counts| else 5
    ensures forall i :: 0 <= i < |bars| ==> bars[i] == CountryBar(counts[i].name, counts[i].value)
  {
    var all := seq(|counts|, i requires 0 <= i < |counts| => CountryBar(counts[i].name, counts[i].value));
    if |all| <= 5 then all else all[..5]
  }

  /** `chartDataPais`: the first five countries by first occurrence, with their counts. */
  method ChartDataPais(leads: seq<Lead>) returns (data: seq<CountryBar>)
    ensures data == CountryBars(Tally(Countries(leads)))
  {
    var counts := CountMap(Countries(leads));
    data := CountryBars(counts);
  }

  /** The country series keeps at most five bars, each an exact count, earliest first. */
  lemma PaisSeries(leads: seq<Lead>)
    ensures var bars := CountryBars(Tally(Countries(leads)));
      |bars| <= 5
      && (forall i :: 0 <= i < |bars| ==>
            bars[i].name in Countries(leads) && bars[i].count == multiset(Countries(leads))[bars[i].name])
      && (forall i, j :: 0 <= i < j < |bars| ==>
            FirstIndex(Countries(leads), bars[i].name) < FirstIndex(Countries(leads), bars[j].name))
  {
    var arr := Countries(leads);
    var m := Tally(arr);
    TallyKeys(arr);
    TallyCounts(arr);
    TallyOrder(arr);
    var bars := CountryBars(m);
    forall i | 0 <= i < |bars|
      ensures bars[i].name in arr && bars[i].count == multiset(arr)[bars[i].name]
    {
      assert bars[i].name == Keys(m)[i];
      assert FirstIndex(Keys(m), m[i].name) == i;
    }
  }

  /**
   * The bars are the first five countries to appear, not the five most
   * frequent: with six countries, the one seen last is dropped even when it
   * is the most frequent.
   */
  lemma PaisSeriesNotTopFive()
    ensures CountryBars(Tally(["A", "B", "C", "D", "E", "F", "F"]))
      == [CountryBar("A", 1), CountryBar("B", 1), CountryBar("C", 1), CountryBar("D", 1), CountryBar("E", 1)]
  {
    var arr := ["A", "B", "C", "D", "E", "F", "F"];
    var init := arr[..6];
    assert init == ["A", "B", "C", "D", "E", "F"];
    TallyDistinct(init);
    var six := Tally(init);
    IncrementPrefix(six, "F", 5);
    assert Tally(arr) == Increment(six, "F");
  }

  /** Values that occur once each are listed in input order, each counted once. */
  lemma {:induction false} TallyDistinct(arr: seq<string>)
    requires forall i, j :: 0 <= i < j < |arr| ==> arr[i] != arr[j]
    ensures |Tally(arr)| == |arr|
    ensures forall i :: 0 <= i < |arr| ==> Tally(arr)[i] == Entry(arr[i], 1)
    decreases |arr|
  {
    if arr != [] {
      var init := arr[..|arr| - 1];
      var x := arr[|arr| - 1];
      TallyDistinct(init);
      var m := Tally(init);
      forall i | 0 <= i < |m|
        ensures Keys(m)[i] != x
      {
        assert Keys(m)[i] == init[i];
      }
      assert FirstIndex(Keys(m), x) == |m|;
    }
  }

  /** Counting a key found at or after position n leaves the first n entries alone. */
  lemma IncrementPrefix(m: Counts, key: string, n: int)
    requires 0 <= n <= |m|
    requires forall j :: 0 <= j < n ==> m[j].name != key
    ensures |Increment(m, key)| >= |m|
    ensures Increment(m, key)[..n] == m[..n]
  {
    var i := FirstIndex(Keys(m), key);
    assert i < |m| ==> Keys(m)[i] == m[i].name;
  }
}
