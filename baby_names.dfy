/**
 * A catalog entry (one baby name) and the pure logic the engine applies to
 * entries: how a record's sex folds into the entry's sex, what backfilling
 * the year range does to a history, how an entry is rendered for display
 * and parsed back, which entries a query's filters let through, and the
 * popularity orders.
 */
module BabyNames {
  import opened Orders

  /** The catalog covers the years FirstYear .. EndYear - 1. */
  const FirstYear: int := 1880
  const EndYear: int := 2015
  /** The window passed to the popularity total when the query asks for all years. */
  const AllYearsWindow: int := 135

  /** One name of the catalog. `history` maps a year to the number of babies
      given the name that year; `popTotal` is the popularity total last
      computed for the current year window. */
  datatype BabyName = BabyName(name: string, sex: string, initial: char, history: map<int, int>, popTotal: int)

  /** The sex an entry holds after a record reporting `observed`: kept when
      the two agree, unisex ("U") otherwise. */
  function MergeSex(current: string, observed: string): (r: string)
    ensures r == current || r == "U"
    ensures r == "U" <==> current == "U" || current != observed
  {
    if current == observed then current else "U"
  }

  /** The sex of an entry created by the first of these records and then
      updated by each of the others, in order. */
  function SexAfterRecords(sexes: seq<string>): string
    requires |sexes| > 0
  {
    if |sexes| == 1 then sexes[0]
    else MergeSex(SexAfterRecords(sexes[..|sexes| - 1]), sexes[|sexes| - 1])
  }

  /** An entry is unisex exactly when its records disagree on the sex, and
      otherwise has the sex they all report; so the order of the records
      does not matter. */
  lemma {:induction false} SexAfterRecordsClosedForm(sexes: seq<string>)
    requires |sexes| > 0
    ensures SexAfterRecords(sexes) ==
              if forall i :: 0 <= i < |sexes| ==> sexes[i] == sexes[0] then sexes[0] else "U"
  {
    if |sexes| > 1 {
      var front := sexes[..|sexes| - 1];
      SexAfterRecordsClosedForm(front);
      assert front[0] == sexes[0];
      if !(forall i :: 0 <= i < |front| ==> front[i] == front[0]) {
        var i :| 0 <= i < |front| && front[i] != front[0];
        assert sexes[i] != sexes[0];
      }
    }
  }

  /** Promotion to unisex never reverts, whatever records follow. */
  lemma {:induction false} UnisexIsPermanent(sexes: seq<string>, later: seq<string>)
    requires |sexes| > 0 && SexAfterRecords(sexes) == "U"
    ensures SexAfterRecords(sexes + later) == "U"
  {
    if later != [] {
      var all := sexes + later;
      var front := sexes + later[..|later| - 1];
      assert all[..|all| - 1] == front;
      UnisexIsPermanent(sexes, later[..|later| - 1]);
      assert SexAfterRecords(all) == MergeSex(SexAfterRecords(front), all[|all| - 1]);
    } else {
      assert sexes + later == sexes;
    }
  }

  /** `after` is `before` with every catalog year that had no record added
      with popularity 0: every year of the range is present, recorded years
      keep their values, and nothing else is added. */
  ghost predicate Backfilled(before: map<int, int>, after: map<int, int>)
  {
    (forall y :: FirstYear <= y < EndYear ==> y in after) &&
    (forall y :: y in before ==> y in after && after[y] == before[y]) &&
    (forall y :: y in after && y !in before ==> FirstYear <= y < EndYear && after[y] == 0)
  }

  /** The value of a string of decimal digits. */
  function DecimalValue(s: string): int
  {
    if s == [] then 0 else 10 * DecimalValue(s[..|s| - 1]) + (s[|s| - 1] as int - '0' as int)
  }

  function DigitChar(d: nat): char
    requires d < 10
  {
    (d + '0' as int) as char
  }

  /** Java's decimal rendering of a non-negative int: digits only, no
      leading zero, denoting `n`. */
  function NatToDecimal(n: nat): (r: string)
    ensures |r| > 0
    ensures forall k :: 0 <= k < |r| ==> '0' <= r[k] <= '9'
    ensures (r[0] == '0') == (n == 0)
    ensures DecimalValue(r) == n
  {
    if n < 10 then [DigitChar(n)]
    else
      var front := NatToDecimal(n / 10);
      assert (front + [DigitChar(n % 10)])[..|front|] == front;
      front + [DigitChar(n % 10)]
  }

  function IntToDecimal(x: int): string
  {
    if x < 0 then "-" + NatToDecimal(-x) else NatToDecimal(x)
  }

  /** The display string of an entry: "name (popTotal sex)". */
  function Render(b: BabyName): (r: string)
    ensures |b.name| < |r| && r[..|b.name|] == b.name && r[|b.name|] == ' '
    ensures r[|r| - 1] == ')'
  {
    b.name + " (" + IntToDecimal(b.popTotal) + " " + b.sex + ")"
  }

  /** String.indexOf(c): the first position of `c` in `s`, or -1. */
  function IndexOf(s: string, c: char): (r: int)
    ensures -1 <= r < |s|
    ensures r == -1 <==> c !in s
    ensures 0 <= r ==> s[r] == c && c !in s[..r]
  {
    if s == [] then -1
    else if s[0] == c then 0
    else
      var k := IndexOf(s[1..], c);
      assert s == [s[0]] + s[1..];
      if k == -1 then -1
      else
        assert s[..k + 1] == [s[0]] + s[1..][..k];
        k + 1
  }

  /** s.substring(0, s.indexOf(' ')): the text before the first space. */
  function Token(s: string): (r: string)
    requires ' ' in s
    ensures |r| < |s| && r == s[..|r|] && s[|r|] == ' ' && ' ' !in r
  {
    s[..IndexOf(s, ' ')]
  }

  lemma IndexOfAfterPrefix(a: string, c: char, rest: string)
    requires c !in a
    ensures IndexOf(a + [c] + rest, c) == |a|
  {
    var s := a + [c] + rest;
    assert s[|a|] == c;
  }

  /** Parsing the text before the first space out of a rendered entry gives
      back the name, for a name without spaces. */
  lemma RenderedTokenIsName(b: BabyName)
    requires ' ' !in b.name
    ensures ' ' in Render(b) && Token(Render(b)) == b.name
  {
    var rest := "(" + IntToDecimal(b.popTotal) + " " + b.sex + ")";
    assert Render(b) == b.name + [' '] + rest;
    IndexOfAfterPrefix(b.name, ' ', rest);
    assert Render(b)[|b.name|] == ' ';
  }

  /** The gender filter ("A" lets every entry through) and the initial
      filter ('0' lets every entry through). */
  predicate Passes(b: BabyName, gender: string, initial: char): (r: bool)
    ensures gender == "A" && initial == '0' ==> r
    ensures r ==> (gender == "A" || b.sex == gender) && (initial == '0' || b.initial == initial)
  {
    (gender == "A" || b.sex == gender) && (initial == '0' || b.initial == initial)
  }

  /** The display strings of the entries that pass the filters, in list order. */
  function Emitted(es: seq<BabyName>, gender: string, initial: char): (r: seq<string>)
    ensures |r| <= |es|
    ensures gender == "A" && initial == '0' ==> |r| == |es|
    ensures (forall k :: 0 <= k < |es| ==> !Passes(es[k], gender, initial)) ==> r == []
  {
    if es == [] then []
    else
      var last := es[|es| - 1];
      Emitted(es[..|es| - 1], gender, initial) + (if Passes(last, gender, initial) then [Render(last)] else [])
  }

  /** The entries that pass the filters, in list order. */
  function Selected(es: seq<BabyName>, gender: string, initial: char): (r: seq<BabyName>)
    ensures |r| <= |es|
    ensures forall b :: b in r ==> b in es && Passes(b, gender, initial)
    ensures forall b :: b in es && Passes(b, gender, initial) ==> b in r
  {
    if es == [] then []
    else
      var last := es[|es| - 1];
      assert es == es[..|es| - 1] + [last];
      Selected(es[..|es| - 1], gender, initial) + (if Passes(last, gender, initial) then [last] else [])
  }

  /** The display list is the selected entries rendered one by one. */
  lemma {:induction false} EmittedRendersSelected(es: seq<BabyName>, gender: string, initial: char)
    ensures |Emitted(es, gender, initial)| == |Selected(es, gender, initial)|
    ensures forall k :: 0 <= k < |Emitted(es, gender, initial)| ==>
              Emitted(es, gender, initial)[k] == Render(Selected(es, gender, initial)[k])
  {
    if es != [] {
      EmittedRendersSelected(es[..|es| - 1], gender, initial);
    }
  }

  /** `s` is the display string of an entry of `es` that passes both filters. */
  ghost predicate RendersPassing(es: seq<BabyName>, gender: string, initial: char, s: string)
  {
    exists j :: 0 <= j < |es| && Passes(es[j], gender, initial) && s == Render(es[j])
  }

  /** Every display string is the rendering of an entry of the list that
      passes both filters, and every such entry is rendered. */
  lemma EmittedEntriesPass(es: seq<BabyName>, gender: string, initial: char)
    ensures forall k :: 0 <= k < |Emitted(es, gender, initial)| ==> RendersPassing(es, gender, initial, Emitted(es, gender, initial)[k])
    ensures forall j :: 0 <= j < |es| && Passes(es[j], gender, initial) ==> Render(es[j]) in Emitted(es, gender, initial)
  {
    var out, sel := Emitted(es, gender, initial), Selected(es, gender, initial);
    EmittedRendersSelected(es, gender, initial);
    forall k | 0 <= k < |out|
      ensures RendersPassing(es, gender, initial, out[k])
    {
      assert sel[k] in sel;
      var j :| 0 <= j < |es| && es[j] == sel[k];
      assert Passes(es[j], gender, initial) && out[k] == Render(es[j]);
    }
    forall j | 0 <= j < |es| && Passes(es[j], gender, initial)
      ensures Render(es[j]) in out
    {
      assert es[j] in es;
      var i :| 0 <= i < |sel| && sel[i] == es[j];
      assert out[i] == Render(es[j]);
    }
  }

  /** Emitting a list in two pieces emits the same strings in the same order. */
  lemma {:induction false} EmittedAppend(a: seq<BabyName>, b: seq<BabyName>, gender: string, initial: char)
    ensures Emitted(a + b, gender, initial) == Emitted(a, gender, initial) + Emitted(b, gender, initial)
  {
    if b == [] {
      assert a + b == a;
    } else {
      assert (a + b)[..|a + b| - 1] == a + b[..|b| - 1];
      EmittedAppend(a, b[..|b| - 1], gender, initial);
    }
  }

  /** The popularity total of the entry a key refers to. */
  function Pop(m: map<string, BabyName>, k: string): int
  {
    if k in m then m[k].popTotal else 0
  }

  /** Popularity from high to low (the popularity comparator's order). */
  ghost predicate PopDescending(s: seq<string>, m: map<string, BabyName>)
  {
    forall i, j :: 0 <= i < j < |s| ==> Pop(m, s[i]) >= Pop(m, s[j])
  }

  /** Popularity from low to high. */
  ghost predicate PopAscending(s: seq<string>, m: map<string, BabyName>)
  {
    forall i, j :: 0 <= i < j < |s| ==> Pop(m, s[i]) <= Pop(m, s[j])
  }

  /** popComparator.compare: the sign of the second total minus the first,
      so the higher total comes first and equal totals are ties. */
  function PopCompare(m: map<string, BabyName>, a: string, b: string): (r: int)
    ensures -1 <= r <= 1
    ensures r <= 0 <==> Pop(m, a) >= Pop(m, b)
    ensures r == 0 <==> Pop(m, a) == Pop(m, b)
  {
    var comp := Pop(m, b) - Pop(m, a);
    if comp > 0 then 1 else if comp < 0 then -1 else 0
  }

  /** Collections.sort(list, new popComparator()). */
  function SortByPop(s: seq<string>, m: map<string, BabyName>): (r: seq<string>)
    ensures multiset(r) == multiset(s)
    ensures PopDescending(r, m)
  {
    SortBy(s, (a, b) => PopCompare(m, a, b) <= 0)
  }

  /** Reversing a list sorted from high to low popularity sorts it from low to high. */
  lemma ReversedDescendingIsAscending(s: seq<string>, m: map<string, BabyName>)
    requires PopDescending(s, m)
    ensures PopAscending(Reversed(s), m)
  {
    var r := Reversed(s);
    forall i, j | 0 <= i < j < |r|
      ensures Pop(m, r[i]) <= Pop(m, r[j])
    {
      assert r[i] == s[|s| - 1 - i] && r[j] == s[|s| - 1 - j];
    }
  }
}
