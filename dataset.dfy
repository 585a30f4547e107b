/**
 * The filter-and-rank engine over the catalog of baby names
 * (src/babynamepicker/Dataset.java).
 *
 * The catalog `dataMap` owns the entries. The working list `dataList`
 * holds references to those same entries: an entry, once created, is never
 * replaced in the map and is stored under its own name, so a reference is
 * modelled by the entry's key and every update of an entry, popularity
 * totals included, is seen through the list and the map alike, as with the
 * shared objects of the source.
 */
module NamePicker {
  import opened Orders
  import opened BabyNames

  datatype Option<T> = None | Some(value: T)

  /** What convertNameToBabyNameList produces: one reference per input string
      (None for a token with no entry, where the source stores null), or the
      index of the first string without a space, where substring(0, -1)
      throws. */
  datatype Conversion = Converted(refs: seq<Option<string>>) | NoSpaceAt(index: nat)

  /** The five query fields the cache guard compares. */
  datatype Query = Query(gender: string, sort: string, initial: char, nYears: int, numSuggest: int)

  /** A user's stored selection of references into the catalog. */
  datatype User = User(id: int, nameList: seq<Option<string>>)

  /** The window handed to the popularity total: nYears 0 means all years. */
  function Window(nYears: int): (r: int)
    ensures r != 0
    ensures nYears != 0 ==> r == nYears
  {
    if nYears == 0 then AllYearsWindow else nYears
  }

  /** The sort modes the engine knows. */
  predicate KnownSort(sort: string)
  {
    sort == "A" || sort == "P" || sort == "p"
  }

  /** The entries a list of keys refers to. */
  function EntriesOf(keys: seq<string>, m: map<string, BabyName>): (r: seq<BabyName>)
    requires forall i :: 0 <= i < |keys| ==> keys[i] in m
    ensures |r| == |keys| && forall i :: 0 <= i < |keys| ==> r[i] == m[keys[i]]
  {
    seq(|keys|, i requires 0 <= i < |keys| => m[keys[i]])
  }

  /** getBabyName of the text before the first space, as a reference. */
  function Resolve(m: map<string, BabyName>, s: string): (r: Option<string>)
    requires ' ' in s
    ensures r.Some? <==> Token(s) in m
    ensures r.Some? ==> r.value == Token(s) && ' ' !in r.value && s[..|r.value|] == r.value && s[|r.value|] == ' '
  {
    var token := Token(s);
    if token in m then Some(token) else None
  }

  /** Converting the display list back: each display string of an entry with
      a space-free name resolves to a reference to the very entry that
      produced it, in display order. */
  lemma ResolveEmitted(keys: seq<string>, m: map<string, BabyName>, gender: string, initial: char)
    requires forall k :: k in m ==> m[k].name == k
    requires forall i :: 0 <= i < |keys| ==> keys[i] in m && ' ' !in keys[i]
    ensures var out := Emitted(EntriesOf(keys, m), gender, initial);
            var sel := Selected(EntriesOf(keys, m), gender, initial);
            |out| == |sel| &&
            forall i :: 0 <= i < |out| ==>
              ' ' in out[i] && sel[i].name in m && m[sel[i].name] == sel[i] &&
              Resolve(m, out[i]) == Some(sel[i].name)
  {
    var es := EntriesOf(keys, m);
    var out := Emitted(es, gender, initial);
    var sel := Selected(es, gender, initial);
    EmittedRendersSelected(es, gender, initial);
    forall i | 0 <= i < |out|
      ensures ' ' in out[i] && sel[i].name in m && m[sel[i].name] == sel[i]
      ensures Resolve(m, out[i]) == Some(sel[i].name)
    {
      assert sel[i] in sel;
      var j :| 0 <= j < |es| && es[j] == sel[i];
      assert m[keys[j]] == sel[i];
      RenderedTokenIsName(sel[i]);
    }
  }

  /** The working list after the reordering step of filterList, given the
      list before, the catalog, the requested and the previous sort mode, and
      whether the year window changed. */
  ghost predicate Reordered(before: seq<string>, after: seq<string>, m: map<string, BabyName>,
                            sort: string, prevSort: string, windowChanged: bool)
  {
    var resorted := sort != prevSort || windowChanged;
    var popSorted := resorted && sort != "A" &&
                     (windowChanged || sort == "P" || ((prevSort == "A" || prevSort == "") && sort == "p"));
    multiset(after) == multiset(before) &&
    (!resorted ==> after == before) &&
    (resorted && sort == "A" ==> NameSorted(after)) &&
    (popSorted && sort != "p" ==> PopDescending(after, m)) &&
    (popSorted && sort == "p" ==> PopAscending(after, m)) &&
    (resorted && sort != "A" && !popSorted ==> after == if sort == "p" then Reversed(before) else before)
  }

  /** `s` is in the order sort mode `sort` asks for: by name for "A", from
      high to low popularity for "P", from low to high for "p". */
  ghost predicate OrderedFor(sort: string, s: seq<string>, m: map<string, BabyName>)
  {
    (sort == "A" ==> NameSorted(s)) &&
    (sort == "P" ==> PopDescending(s, m)) &&
    (sort == "p" ==> PopAscending(s, m))
  }

  /** A catalog of two entries, "a" with popularity total 1 and "b" with 5. */
  function TwoEntryCatalog(): (m: map<string, BabyName>)
    ensures m.Keys == {"a", "b"} && Pop(m, "a") == 1 && Pop(m, "b") == 5
  {
    map["a" := BabyName("a", "F", 'a', map[], 1), "b" := BabyName("b", "F", 'b', map[], 5)]
  }

  /** A refresh from "P" to "A" that throws leaves the list in name order
      while the applied sort mode stays "P"; a later "p" over the same window
      then takes the reverse-only path, and the list it delivers is not from
      low to high popularity. */
  lemma StaleSortModeBreaksAscending(after: seq<string>)
    requires Reordered(["a", "b"], after, TwoEntryCatalog(), "p", "P", false)
    ensures NameSorted(["a", "b"])
    ensures after == ["b", "a"] && !PopAscending(after, TwoEntryCatalog())
  {
    var m := TwoEntryCatalog();
    assert LexLe("a", "b");
    var r := Reversed(["a", "b"]);
    assert r[0] == "b" && r[1] == "a";
    assert r == ["b", "a"];
    assert Pop(m, after[0]) > Pop(m, after[1]);
  }

  /** The display list the emit loop leaves, from the display strings of all
      matching entries and the limit: the first `limit` of them for a
      positive limit, all of them for 0, none for a negative one. `ok` is
      false when a positive limit exceeds the matches; the loop then reads
      past the end of the list and throws, after emitting every match. */
  ghost predicate LimitedOutput(ok: bool, out: seq<string>, all: seq<string>, limit: int)
  {
    (ok <==> !(0 < limit && |all| < limit)) &&
    (limit == 0 ==> out == all) &&
    (limit < 0 ==> out == []) &&
    (0 < limit && ok ==> out == all[..limit]) &&
    (!ok ==> out == all)
  }

  /** Java's nested backfill loop for one entry: every year of the catalog
      without a record gets popularity 0. */
  method BackfillYears(history: map<int, int>) returns (filled: map<int, int>)
    ensures Backfilled(history, filled)
  {
    filled := history;
    var j := FirstYear;
    while j < EndYear
      invariant FirstYear <= j <= EndYear
      invariant forall y :: FirstYear <= y < j ==> y in filled
      invariant forall y :: y in history ==> y in filled && filled[y] == history[y]
      invariant forall y :: y in filled && y !in history ==> FirstYear <= y < j && filled[y] == 0
    {
      if j !in filled {
        filled := filled[j := 0];
      }
      j := j + 1;
    }
  }

  /** `after` is `before` with its history backfilled and nothing else changed. */
  ghost predicate EntryBackfilled(before: BabyName, after: BabyName)
  {
    after == before.(history := after.history) && Backfilled(before.history, after.history)
  }

  lemma PermutedKeysStayInMap(before: seq<string>, after: seq<string>, m: map<string, BabyName>)
    requires forall i :: 0 <= i < |before| ==> before[i] in m
    requires multiset(after) == multiset(before)
    ensures forall i :: 0 <= i < |after| ==> after[i] in m
  {
    forall i | 0 <= i < |after|
      ensures after[i] in m
    {
      assert after[i] in multiset(before);
      var j :| 0 <= j < |before| && before[j] == after[i];
    }
  }

  /** The loop of finalList over the keys of the catalog `m`, in whatever
      order the map yields them: backfills each entry and appends its key to
      `list`. */
  method BackfillAndCollect(m: map<string, BabyName>, list: seq<string>)
    returns (m': map<string, BabyName>, list': seq<string>)
    requires forall k :: k in m ==> m[k].name == k
    requires forall i :: 0 <= i < |list| ==> list[i] in m
    ensures m'.Keys == m.Keys
    ensures forall k :: k in m' ==> EntryBackfilled(m[k], m'[k])
    ensures forall k :: k in m' ==> m'[k].name == k
    ensures forall i :: 0 <= i < |list'| ==> list'[i] in m'
    ensures forall x :: multiset(list')[x] == multiset(list)[x] + if x in m then 1 else 0
  {
    var todo := m.Keys;
    ghost var done: set<string> := {};
    m', list' := m, list;
    while todo != {}
      invariant m'.Keys == m.Keys
      invariant todo <= m.Keys && done == m.Keys - todo
      invariant forall k :: k in todo ==> m'[k] == m[k]
      invariant forall k :: k in done ==> EntryBackfilled(m[k], m'[k])
      invariant forall i :: 0 <= i < |list'| ==> list'[i] in m'
      invariant forall x :: multiset(list')[x] == multiset(list)[x] + if x in done then 1 else 0
      decreases todo
    {
      var k :| k in todo;
      var filled := BackfillYears(m'[k].history);   // the inner loop
      m' := m'[k := m'[k].(history := filled)];
      list' := list' + [k];
      todo := todo - {k};
      done := done + {k};
    }
  }

  /** `after` is `before` with the popularity total of every entry a key of
      `keys` refers to recomputed from its history for `window` by
      `popTotalOf`; all other entries are untouched. */
  ghost predicate PopTotalsRecomputed(before: map<string, BabyName>, after: map<string, BabyName>,
                                      keys: seq<string>, window: int, popTotalOf: (map<int, int>, int) -> int)
  {
    after.Keys == before.Keys &&
    forall k :: k in before ==>
      after[k] == if k in keys then before[k].(popTotal := popTotalOf(before[k].history, window)) else before[k]
  }

  /** The popularity sweep of filterList: setPopTotal on every entry of the
      working list, in list order. */
  method RecomputePopTotals(m: map<string, BabyName>, keys: seq<string>, window: int,
                            popTotalOf: (map<int, int>, int) -> int) returns (r: map<string, BabyName>)
    requires forall i :: 0 <= i < |keys| ==> keys[i] in m
    ensures PopTotalsRecomputed(m, r, keys, window, popTotalOf)
  {
    r := m;
    var i := 0;
    while i < |keys|
      invariant 0 <= i <= |keys|
      invariant PopTotalsRecomputed(m, r, keys[..i], window, popTotalOf)
    {
      var k := keys[i];
      r := r[k := r[k].(popTotal := popTotalOf(r[k].history, window))];
      assert keys[..i + 1] == keys[..i] + [k];
      i := i + 1;
    }
    assert keys[..i] == keys;
  }

  /** The stack reversal of filterList: push every element onto an emptied
      stack, clear the list, pop them all back. */
  method ReverseByStack(list: seq<string>) returns (r: seq<string>)
    ensures r == Reversed(list)
  {
    var sortingStack: seq<string> := [];
    var i := 0;
    while i < |list|
      invariant 0 <= i <= |list|
      invariant sortingStack == list[..i]
    {
      sortingStack := sortingStack + [list[i]];
      i := i + 1;
    }
    assert sortingStack == list;
    r := [];
    while sortingStack != []
      invariant |r| + |sortingStack| == |list|
      invariant sortingStack == list[..|sortingStack|]
      invariant forall k :: 0 <= k < |r| ==> r[k] == list[|list| - 1 - k]
      decreases |sortingStack|
    {
      var top := sortingStack[|sortingStack| - 1];
      sortingStack := sortingStack[..|sortingStack| - 1];
      r := r + [top];
    }
  }

  /** The reordering step of filterList: re-sorts the working list when the
      sort mode or the year window changed since the last applied query. */
  method Reorder(list: seq<string>, m: map<string, BabyName>, sort: string, prevSort: string, windowChanged: bool)
    returns (r: seq<string>)
    ensures Reordered(list, r, m, sort, prevSort, windowChanged)
    ensures KnownSort(sort) &&
            (windowChanged || ((prevSort == "" || KnownSort(prevSort)) && OrderedFor(prevSort, list, m))) ==>
              OrderedFor(sort, r, m)
  {
    r := list;
    if sort != prevSort || windowChanged {
      if sort == "A" {
        r := SortByName(list);
      } else {
        ghost var popSorted := false;
        if windowChanged || sort == "P" || ((prevSort == "A" || prevSort == "") && sort == "p") {
          r := SortByPop(list, m);
          popSorted := true;
        }
        if sort == "p" {
          var sorted := r;
          r := ReverseByStack(sorted);
          if popSorted || (prevSort == "P" && OrderedFor(prevSort, list, m)) {
            ReversedDescendingIsAscending(sorted, m);
          }
        }
      }
    }
  }

  /** Emitting one more entry of a list appends its display string when it passes. */
  lemma EmittedStep(es: seq<BabyName>, i: int, gender: string, initial: char)
    requires 0 <= i < |es|
    ensures Emitted(es[..i + 1], gender, initial) ==
              Emitted(es[..i], gender, initial) + (if Passes(es[i], gender, initial) then [Render(es[i])] else [])
  {
    assert es[..i + 1][..i] == es[..i];
  }

  /** The emit loop of filterList over the entries `keys` refers to: the
      display strings of the entries that pass the gender and initial
      filters, up to `limit` of them (all of them for 0). */
  method EmitMatches(keys: seq<string>, m: map<string, BabyName>, gender: string, initial: char, limit: int)
    returns (ok: bool, out: seq<string>)
    requires forall i :: 0 <= i < |keys| ==> keys[i] in m
    ensures LimitedOutput(ok, out, Emitted(EntriesOf(keys, m), gender, initial), limit)
  {
    ghost var es := EntriesOf(keys, m);
    out := [];
    var n := if limit == 0 then |keys| else limit;
    var i, j := 0, 0;
    while j < n
      invariant 0 <= i <= |keys|
      invariant out == Emitted(es[..i], gender, initial)
      invariant limit == 0 ==> j == i
      invariant limit != 0 ==> j == |out|
      invariant 0 < limit ==> j <= n
      invariant limit < 0 ==> out == []
      decreases |keys| - i
    {
      if i >= |keys| {
        // dataList.get(i) throws IndexOutOfBoundsException
        assert es[..i] == es;
        return false, out;
      }
      var b := m[keys[i]];
      EmittedStep(es, i, gender, initial);
      if gender == "A" || b.sex == gender {
        if initial != '0' {
          if b.initial == initial {
            out := out + [Render(b)];
          }
        } else {
          out := out + [Render(b)];
        }
      }
      i := i + 1;
      if limit == 0 {
        j := i;
      } else {
        j := |out|;
      }
    }
    assert es == es[..i] + es[i..];
    EmittedAppend(es[..i], es[i..], gender, initial);
    if limit == 0 {
      assert es[..i] == es;
    }
    ok := true;
  }

  /** What a recomputation for query `q` leaves in the catalog `m`, the
      working list `l` and the display list `out`, from the catalog and the
      working list before it and the query `prev` applied before it:
      popularity totals recomputed by `popTotalOf` when the window changed,
      the list reordered, and the display list limited. */
  ghost predicate Refreshed(ok: bool, mapBefore: map<string, BabyName>, listBefore: seq<string>, prev: Query,
                            q: Query, popTotalOf: (map<int, int>, int) -> int,
                            m: map<string, BabyName>, l: seq<string>, out: seq<string>)
    requires forall i :: 0 <= i < |l| ==> l[i] in m
  {
    (if prev.nYears != q.nYears
     then PopTotalsRecomputed(mapBefore, m, listBefore, Window(q.nYears), popTotalOf)
     else m == mapBefore) &&
    Reordered(listBefore, l, m, q.sort, prev.sort, prev.nYears != q.nYears) &&
    LimitedOutput(ok, out, Emitted(EntriesOf(l, m), q.gender, q.initial), q.numSuggest)
  }

  /** The body of filterList for a query `q` that differs from the query
      `prev` applied last, on the catalog `m` and the working list `keys`. */
  method Recompute(m: map<string, BabyName>, keys: seq<string>, prev: Query, q: Query,
                   popTotalOf: (map<int, int>, int) -> int)
    returns (ok: bool, m': map<string, BabyName>, list: seq<string>, out: seq<string>)
    requires forall i :: 0 <= i < |keys| ==> keys[i] in m
    ensures m'.Keys == m.Keys && forall k :: k in m ==> m'[k].name == m[k].name
    ensures forall i :: 0 <= i < |list| ==> list[i] in m'
    ensures Refreshed(ok, m, keys, prev, q, popTotalOf, m', list, out)
    ensures KnownSort(q.sort) && (prev.sort == "" || KnownSort(prev.sort)) && OrderedFor(prev.sort, keys, m) ==>
              OrderedFor(q.sort, list, m')
  {
    m' := m;
    if q.nYears != prev.nYears {
      m' := RecomputePopTotals(m, keys, Window(q.nYears), popTotalOf);
    }
    list := Reorder(keys, m', q.sort, prev.sort, q.nYears != prev.nYears);
    PermutedKeysStayInMap(keys, list, m');
    ok, out := EmitMatches(list, m', q.gender, q.initial, q.numSuggest);
  }

  class Dataset {
    /** BabyName.setPopTotal, which is not part of this model: the
        popularity total of a history over a window of years. */
    const popTotalOf: (map<int, int>, int) -> int

    var dataMap: map<string, BabyName>
    var dataList: seq<string>
    var filteredList: seq<string>
    /** The query the next filterList applies (the current* fields). */
    var current: Query
    /** The query filterList applied last (the prev* fields). */
    var prev: Query
    var user1: User
    var user2: User
    var currentUser: int

    /** Every entry is stored under its own name and the working list refers
        only to entries of the catalog. */
    ghost predicate Valid()
      reads this`dataMap, this`dataList
    {
      (forall k :: k in dataMap ==> dataMap[k].name == k) &&
      (forall i :: 0 <= i < |dataList| ==> dataList[i] in dataMap)
    }

    /** The working list is in the order of the last applied sort mode,
        which is one the engine knows or the reset value "". */
    ghost predicate OrderInv()
      reads this`prev, this`dataList, this`dataMap
    {
      (prev.sort == "" || KnownSort(prev.sort)) && OrderedFor(prev.sort, dataList, dataMap)
    }

    constructor (popTotalOf: (map<int, int>, int) -> int)
      ensures this.popTotalOf == popTotalOf
      ensures dataMap == map[] && dataList == [] && filteredList == []
      ensures prev == Query("A", "", '0', -1, -1)
      ensures current == Query("A", "A", '0', 0, 0)
      ensures user1 == User(1, []) && user2 == User(2, []) && currentUser == 0
      ensures Valid() && OrderInv()
    {
      this.popTotalOf := popTotalOf;
      dataMap := map[];
      dataList := [];
      filteredList := [];
      prev := Query("A", "", '0', -1, -1);
      current := Query("A", "A", '0', 0, 0);
      user1 := User(1, []);
      user2 := User(2, []);
      currentUser := 0;
    }

    function GetBabyName(name: string): (r: Option<BabyName>)
      reads this
      requires Valid()
      ensures r.Some? <==> name in dataMap
      ensures r.Some? ==> r.value == dataMap[name] && r.value.name == name
    {
      if name in dataMap then Some(dataMap[name]) else None
    }

    /** The entries of the working list, in list order. */
    function GetDataList(): (r: seq<BabyName>)
      reads this
      requires Valid()
      ensures |r| == |dataList|
      ensures forall i :: 0 <= i < |r| ==> r[i] == dataMap[dataList[i]] && r[i].name == dataList[i]
    {
      EntriesOf(dataList, dataMap)
    }

    /** Records that `pop` babies were given `name` in `year`, creating the
        entry on the first record and promoting its sex to unisex on a
        record of the other sex. */
    method AddName(name: string, sex: string, initial: char, year: int, pop: int)
      requires Valid()
      modifies this`dataMap
      ensures Valid()
      ensures dataMap.Keys == old(dataMap).Keys + {name}
      ensures forall k :: k in old(dataMap) && k != name ==> dataMap[k] == old(dataMap)[k]
      ensures name !in old(dataMap) ==> dataMap[name] == BabyName(name, sex, initial, map[year := pop], 0)
      ensures name in old(dataMap) ==>
                var before := old(dataMap)[name];
                dataMap[name] == before.(sex := MergeSex(before.sex, sex), history := before.history[year := pop])
      ensures old(OrderInv()) ==> OrderInv()
    {
      var m := dataMap;
      if name !in m {
        m := m[name := BabyName(name, sex, initial, map[], 0)];
      }
      if name in m && m[name].sex != sex {
        m := m[name := m[name].(sex := "U")];
      }
      m := m[name := m[name].(history := m[name].history[year := pop])];
      assert forall k :: k in dataMap ==> Pop(m, k) == Pop(dataMap, k);
      dataMap := m;
    }

    /** Backfills every entry's history and adds every entry to the working
        list, which is then sorted by name. */
    method FinalList()
      requires Valid()
      modifies this`dataMap, this`dataList
      ensures Valid()
      ensures dataMap.Keys == old(dataMap).Keys
      ensures forall k :: k in dataMap ==> EntryBackfilled(old(dataMap)[k], dataMap[k])
      ensures forall x :: multiset(dataList)[x] == multiset(old(dataList))[x] + if x in old(dataMap) then 1 else 0
      ensures NameSorted(dataList)
      ensures old(OrderInv()) && prev.sort != "P" && prev.sort != "p" ==> OrderInv()
    {
      var m, unsorted := BackfillAndCollect(dataMap, dataList);
      var sorted := SortByName(unsorted);
      PermutedKeysStayInMap(unsorted, sorted, m);
      dataMap, dataList := m, sorted;
    }

    method ClearList()
      requires Valid()
      modifies this`dataList
      ensures Valid()
      ensures dataList == []
      ensures old(OrderInv()) ==> OrderInv()
    {
      dataList := [];
    }

    /** Re-derives the display list, unless the query is the one last applied.
        `ok` is false when the emit loop reads past the end of the working
        list, where the source throws; the applied query is then not
        recorded. */
    method FilterList() returns (ok: bool)
      requires Valid()
      modifies this`dataMap, this`dataList, this`filteredList, this`prev
      ensures Valid()
      ensures old(prev) == current ==>
                ok && dataMap == old(dataMap) && dataList == old(dataList) && filteredList == old(filteredList) &&
                prev == old(prev)
      ensures old(prev) != current ==>
                Refreshed(ok, old(dataMap), old(dataList), old(prev), current, popTotalOf, dataMap, dataList, filteredList) &&
                prev == if ok then current else old(prev)
      ensures old(OrderInv()) && ok && KnownSort(current.sort) ==> OrderInv()
    {
      if prev == current {
        return true;
      }
      var m, list, out;
      ok, m, list, out := Recompute(dataMap, dataList, prev, current, popTotalOf);
      dataMap, dataList, filteredList := m, list, out;
      if ok {
        prev := current;
      }
    }

    /** Restores the default query and makes the applied one differ from
        it, so that the next filterList recomputes. */
    method ResetFilters()
      modifies this`prev, this`current
      ensures prev == Query("A", "", '0', -1, -1)
      ensures current == Query("A", "A", '0', 0, 0)
      ensures prev != current
      ensures OrderInv()
    {
      prev := Query("A", "", '0', -1, -1);
      current := Query("A", "A", '0', 0, 0);
    }

    method SetCurrentInitial(currentInitial: char)
      modifies this`current
      ensures current == old(current).(initial := currentInitial)
    {
      current := current.(initial := currentInitial);
    }

    method SetCurrentGender(currentGender: string)
      modifies this`current
      ensures current == old(current).(gender := currentGender)
    {
      current := current.(gender := currentGender);
    }

    method SetCurrentSort(currentSort: string)
      modifies this`current
      ensures current == old(current).(sort := currentSort)
    {
      current := current.(sort := currentSort);
    }

    method SetCurrentNYears(currentNYears: int)
      modifies this`current
      ensures current == old(current).(nYears := currentNYears)
    {
      current := current.(nYears := currentNYears);
    }

    method SetCurrentNumSuggest(currentNumSuggest: int)
      modifies this`current
      ensures current == old(current).(numSuggest := currentNumSuggest)
    {
      current := current.(numSuggest := currentNumSuggest);
    }

    /** Maps display strings back to the entries they name, by the text
        before the first space. */
    method ConvertNameToBabyNameList(inputList: seq<string>) returns (r: Conversion)
      requires Valid()
      ensures r.Converted? <==> forall i :: 0 <= i < |inputList| ==> ' ' in inputList[i]
      ensures r.NoSpaceAt? ==>
                r.index < |inputList| && ' ' !in inputList[r.index] &&
                forall i :: 0 <= i < r.index ==> ' ' in inputList[i]
      ensures r.Converted? ==>
                |r.refs| == |inputList| &&
                forall i :: 0 <= i < |inputList| ==> r.refs[i] == Resolve(dataMap, inputList[i])
    {
      var converted: seq<Option<string>> := [];
      var i := 0;
      while i < |inputList|
        invariant 0 <= i <= |inputList|
        invariant |converted| == i
        invariant forall k :: 0 <= k < i ==> ' ' in inputList[k] && converted[k] == Resolve(dataMap, inputList[k])
      {
        var s := inputList[i];
        var space := IndexOf(s, ' ');
        if space < 0 {
          return NoSpaceAt(i);
        }
        var token := s[..space];
        var found := GetBabyName(token);
        converted := converted + [if found.Some? then Some(token) else None];
        i := i + 1;
      }
      r := Converted(converted);
    }

    /** Replaces the list of user 1 or user 2; any other id changes nothing. */
    method SetUserNameList(user: int, inputList: seq<Option<string>>)
      modifies this`user1, this`user2
      ensures user == 1 ==> user1 == old(user1).(nameList := inputList) && user2 == old(user2)
      ensures user == 2 ==> user2 == old(user2).(nameList := inputList) && user1 == old(user1)
      ensures user != 1 && user != 2 ==> user1 == old(user1) && user2 == old(user2)
    {
      if user == 1 {
        user1 := user1.(nameList := inputList);
      } else if user == 2 {
        user2 := user2.(nameList := inputList);
      }
    }

    /** The list of user 1 or user 2; None (the source's null) for any other id. */
    function GetUserNameList(user: int): (r: Option<seq<Option<string>>>)
      reads this
      ensures r.Some? <==> user == 1 || user == 2
      ensures user == 1 ==> r == Some(user1.nameList)
      ensures user == 2 ==> r == Some(user2.nameList)
    {
      if user == 1 then Some(user1.nameList)
      else if user == 2 then Some(user2.nameList)
      else None
    }

    method SetCurrentUser(n: int)
      modifies this`currentUser
      ensures currentUser == n
    {
      currentUser := n;
    }

    function GetCurrentUser(): (r: int)
      reads this
      ensures r == currentUser
    {
      currentUser
    }
  }
}
