/**
 Continuity of invoice numbers per series (zdrovena/audit/sections.py, check_numbering). Turning the
 part before the slash into an integer is Python's int(), given from outside.
 */
module InvoiceNumbering {
  import opened Prelude
  import StableSort

  // ---- Grouping ------------------------------------------------------------------------------------

  function Slash(number: string): (n: nat)
    ensures n <= |number|
  {
    if number == "" || number[0] == '/' then 0 else 1 + Slash(number[1..])
  }

  /** (series, sequence number) of a number with a slash and an integer before it. */
  function Parsed(number: string, toInt: string -> Option<int>): Option<(string, int)> {
    var n := Slash(number);
    if n == |number| then None
    else match toInt(number[..n])
      case Some(i) => Some((number[n + 1..], i))
      case None => None
  }

  lemma {:induction false} SlashIsFirst(number: string)
    ensures Slash(number) < |number| ==> number[Slash(number)] == '/'
    ensures '/' !in number[..Slash(number)]
  {
    if number == "" || number[0] == '/' {
    } else {
      SlashIsFirst(number[1..]);
      assert number[..Slash(number)] == [number[0]] + number[1..][..Slash(number[1..])];
    }
  }

  lemma {:induction false} SlashAfter(left: string, right: string)
    requires '/' !in left
    ensures Slash(left + "/" + right) == |left|
  {
    var s := left + "/" + right;
    if left == "" {
      assert s[0] == '/';
    } else {
      assert s[1..] == left[1..] + "/" + right && s[0] == left[0];
      SlashAfter(left[1..], right);
    }
  }

  /** A number belongs to a series if and only if it is an integer text without slash, a slash, and the
      series - which may have slashes of its own. */
  lemma ParsedMeans(number: string, toInt: string -> Option<int>, series: string, i: int)
    ensures Parsed(number, toInt) == Some((series, i))
            <==> exists left: string :: '/' !in left && number == left + "/" + series && toInt(left) == Some(i)
  {
    var n := Slash(number);
    SlashIsFirst(number);
    if Parsed(number, toInt) == Some((series, i)) {
      assert number == number[..n] + "/" + number[n + 1..];
    }
    if left: string :| '/' !in left && number == left + "/" + series && toInt(left) == Some(i) {
      SlashAfter(left, series);
      assert number[..n] == left && number[n + 1..] == series;
    }
  }

  /** The sequence numbers of one series, in document order. */
  function InSeries(numbers: seq<string>, toInt: string -> Option<int>, series: string): seq<int> {
    if numbers == [] then []
    else
      var before := InSeries(numbers[..|numbers| - 1], toInt, series);
      match Parsed(numbers[|numbers| - 1], toInt)
      case Some((s, i)) => if s == series then before + [i] else before
      case None => before
  }

  /** Document by document: one that parses to the series adds its number, any other adds nothing. */
  lemma {:induction false} InSeriesConcat(a: seq<string>, b: seq<string>, toInt: string -> Option<int>, series: string)
    ensures InSeries(a + b, toInt, series) == InSeries(a, toInt, series) + InSeries(b, toInt, series)
    decreases |b|
  {
    if b == [] {
      assert a + b == a;
    } else {
      var front, last := b[..|b| - 1], b[|b| - 1];
      assert (a + b)[..|a + b| - 1] == a + front && (a + b)[|a + b| - 1] == last;
      InSeriesConcat(a, front, toInt, series);
    }
  }

  lemma InSeriesOne(number: string, toInt: string -> Option<int>, series: string)
    ensures InSeries([number], toInt, series) ==
            match Parsed(number, toInt) case Some((s, i)) => (if s == series then [i] else []) case None => []
  {
    assert [number][..0] == [];
  }

  method GroupBySeries(numbers: seq<string>, toInt: string -> Option<int>) returns (groups: map<string, seq<int>>)
    ensures forall s :: s in groups <==> InSeries(numbers, toInt, s) != []
    ensures forall s :: s in groups ==> groups[s] == InSeries(numbers, toInt, s)
  {
    groups := map[];
    for i := 0 to |numbers|
      invariant forall s :: s in groups <==> InSeries(numbers[..i], toInt, s) != []
      invariant forall s :: s in groups ==> groups[s] == InSeries(numbers[..i], toInt, s)
    {
      assert numbers[..i + 1][..i] == numbers[..i];
      var parsed := Parsed(numbers[i], toInt);
      if parsed.Some? {
        var (series, n) := parsed.value;
        groups := groups[series := (if series in groups then groups[series] else []) + [n]];
      }
    }
    assert numbers[..|numbers|] == numbers;
  }

  // ---- One series ----------------------------------------------------------------------------------

  predicate Less(a: int, b: int) { a < b }

  function Sorted(xs: seq<int>): seq<int> { StableSort.Sorted(Less, xs) }

  ghost predicate Ascending(xs: seq<int>) { forall i, j :: 0 <= i < j < |xs| ==> xs[i] <= xs[j] }

  ghost predicate Increasing(xs: seq<int>) { forall i, j :: 0 <= i < j < |xs| ==> xs[i] < xs[j] }

  lemma SortSorts(xs: seq<int>)
    ensures Ascending(Sorted(xs)) && multiset(Sorted(xs)) == multiset(xs) && |Sorted(xs)| == |xs|
  {
    assert StableSort.WeakOrder(Less);
    StableSort.SortSorts(Less, xs);
    assert forall i, j :: 0 <= i < j < |Sorted(xs)| ==> !Less(Sorted(xs)[j], Sorted(xs)[i]);
  }

  datatype SeriesResult = SeriesResult(
    count: nat, first: int, last: int, expected: int, gaps: seq<int>, duplicates: seq<int>)
  {
    predicate Ok() { gaps == [] && duplicates == [] }
  }

  /** What the analysis must say about the numbers of one series. */
  ghost predicate Describes(r: SeriesResult, nums: seq<int>) {
    && r.count == |nums|
    && (nums == [] ==> r == SeriesResult(0, 0, 0, 0, [], []))
    && (nums != [] ==>
          && r.first in nums && r.last in nums && (forall x :: x in nums ==> r.first <= x <= r.last)
          && r.expected == r.last - r.first + 1)
    && Increasing(r.gaps)
    && (forall x :: x in r.gaps <==> nums != [] && r.first <= x <= r.last && x !in nums)
    && Ascending(r.duplicates)
    && Repeats(r.duplicates, nums)
  }

  /** Which numbers of `xs` are reported as duplicates, and how often. */
  ghost predicate Repeats(duplicates: seq<int>, xs: seq<int>) {
    && (forall x :: x in xs ==> multiset(duplicates)[x] == multiset(xs)[x] - 1)
    && (forall x :: x in duplicates ==> x in xs)
  }

  /** Every occurrence after the first, in order. */
  function Extra(xs: seq<int>): seq<int> {
    if xs == [] then []
    else
      var front, last := xs[..|xs| - 1], xs[|xs| - 1];
      Extra(front) + if last in front then [last] else []
  }

  lemma {:induction false} ExtraCounts(xs: seq<int>, x: int)
    ensures multiset(Extra(xs))[x] == if x in xs then multiset(xs)[x] - 1 else 0
  {
    if xs == [] {
    } else {
      var front, last := xs[..|xs| - 1], xs[|xs| - 1];
      ExtraCounts(front, x);
      assert xs == front + [last];
      assert last in front <==> last in multiset(front);
    }
  }

  lemma ExtraRepeats(xs: seq<int>)
    ensures Repeats(Extra(xs), xs)
  {
    forall x ensures multiset(Extra(xs))[x] == if x in xs then multiset(xs)[x] - 1 else 0 {
      ExtraCounts(xs, x);
    }
    assert forall x :: x in Extra(xs) <==> x in multiset(Extra(xs));
  }

  lemma {:induction false} ExtraAscends(xs: seq<int>)
    requires Ascending(xs)
    ensures Ascending(Extra(xs)) && forall x :: x in Extra(xs) ==> x in xs
  {
    if xs == [] {
    } else {
      var front, last := xs[..|xs| - 1], xs[|xs| - 1];
      ExtraAscends(front);
      assert xs == front + [last];
      forall i | 0 <= i < |Extra(front)| ensures Extra(front)[i] <= last { assert Extra(front)[i] in Extra(front); }
    }
  }

  ghost function Members(xs: seq<int>): set<int> { set x | x in xs }

  lemma {:induction false} ExtraAndMembers(xs: seq<int>)
    ensures |Extra(xs)| + |Members(xs)| == |xs|
  {
    if xs != [] {
      var front, last := xs[..|xs| - 1], xs[|xs| - 1];
      ExtraAndMembers(front);
      assert xs == front + [last];
      assert Members(xs) == Members(front) + {last} && (last in front <==> last in Members(front));
    } else {
      assert Members(xs) == {};
    }
  }

  /** The loop over the sorted numbers. */
  method Duplicates(seqs: seq<int>) returns (duplicates: seq<int>, seen: map<int, nat>)
    ensures duplicates == Extra(seqs)
    ensures seen.Keys == Members(seqs)
  {
    seen, duplicates := map[], [];
    for i := 0 to |seqs|
      invariant duplicates == Extra(seqs[..i])
      invariant seen.Keys == Members(seqs[..i])
    {
      var s := seqs[i];
      assert seqs[..i + 1] == seqs[..i] + [s] && seqs[..i + 1][..i] == seqs[..i];
      if s in seen {
        duplicates := duplicates + [s];
      }
      seen := seen[s := (if s in seen then seen[s] else 0) + 1];
    }
    assert seqs[..|seqs|] == seqs;
  }

  /** The numbers from `first` to before `end` that are not among `present`, ascending. */
  function Missing(present: set<int>, first: int, end: int): seq<int>
    decreases end - first
  {
    if end <= first then []
    else Missing(present, first, end - 1) + if end - 1 in present then [] else [end - 1]
  }

  lemma {:induction false} MissingMembers(present: set<int>, first: int, end: int, x: int)
    ensures x in Missing(present, first, end) <==> first <= x < end && x !in present
    decreases end - first
  {
    if first < end { MissingMembers(present, first, end - 1, x); }
  }

  lemma {:induction false} MissingIncreases(present: set<int>, first: int, end: int)
    ensures Increasing(Missing(present, first, end))
    decreases end - first
  {
    if first < end {
      MissingIncreases(present, first, end - 1);
      var before := Missing(present, first, end - 1);
      forall i | 0 <= i < |before| ensures before[i] < end - 1 {
        MissingMembers(present, first, end - 1, before[i]);
      }
    }
  }

  ghost function Below(s: set<int>, n: int): set<int> { set x | x in s && x < n }

  /** Numbers missing and numbers present fill the range. */
  lemma {:induction false} MissingAndPresent(present: set<int>, first: int, end: int)
    requires first <= end && forall x :: x in present ==> first <= x
    ensures |Missing(present, first, end)| + |Below(present, end)| == end - first
    decreases end - first
  {
    if first < end {
      MissingAndPresent(present, first, end - 1);
      if end - 1 in present {
        assert Below(present, end) == Below(present, end - 1) + {end - 1};
      } else {
        assert Below(present, end) == Below(present, end - 1);
      }
    } else {
      assert Below(present, end) == {};
    }
  }

  lemma MissingFills(gaps: seq<int>, present: set<int>, first: int, last: int)
    requires first <= last && forall x :: x in present ==> first <= x <= last
    requires gaps == Missing(present, first, last + 1)
    ensures Increasing(gaps) && (forall x :: x in gaps <==> first <= x <= last && x !in present)
    ensures |gaps| + |present| == last - first + 1
  {
    MissingIncreases(present, first, last + 1);
    forall x ensures x in gaps <==> first <= x <= last && x !in present {
      MissingMembers(present, first, last + 1, x);
    }
    MissingAndPresent(present, first, last + 1);
    assert Below(present, last + 1) == present;
  }

  /** The loop over the range, and what it leaves. */
  method Gaps(first: int, last: int, seen: map<int, nat>) returns (gaps: seq<int>)
    requires first <= last && forall x :: x in seen ==> first <= x <= last
    ensures Increasing(gaps) && (forall x :: x in gaps <==> first <= x <= last && x !in seen)
    ensures |gaps| + |seen| == last - first + 1
  {
    gaps := [];
    for expected := first to last + 1
      invariant gaps == Missing(seen.Keys, first, expected)
    {
      if expected !in seen {
        gaps := gaps + [expected];
      }
    }
    MissingFills(gaps, seen.Keys, first, last);
    assert |seen| == |seen.Keys|;
  }

  lemma RepeatsOfSorted(nums: seq<int>)
    ensures Repeats(Extra(Sorted(nums)), nums) && Ascending(Extra(Sorted(nums)))
  {
    SortSorts(nums);
    ExtraAscends(Sorted(nums));
    forall x ensures x in Sorted(nums) <==> x in nums { SortedMembers(nums, x); }
    ExtraRepeats(Sorted(nums));
  }

  lemma SortedBounds(nums: seq<int>)
    requires nums != []
    ensures |Sorted(nums)| == |nums|
    ensures var first, last := Sorted(nums)[0], Sorted(nums)[|nums| - 1];
            first in nums && last in nums && forall x :: x in nums ==> first <= x <= last
  {
    SortSorts(nums);
    var sorted := Sorted(nums);
    assert |multiset(sorted)| == |multiset(nums)|;
    forall x ensures x in sorted <==> x in nums { SortedMembers(nums, x); }
    assert sorted[0] in sorted && sorted[|nums| - 1] in sorted;
  }

  /** One series, with the numbering law: the range holds the documents, less the repeated ones, plus the
      missing ones. */
  method AnalyseSeries(nums: seq<int>) returns (r: SeriesResult)
    ensures Describes(r, nums)
    ensures r.expected == r.count - |r.duplicates| + |r.gaps|
  {
    if nums == [] {
      return SeriesResult(0, 0, 0, 0, [], []);
    }
    var seqs := Sorted(nums);
    var duplicates, seen := Duplicates(seqs);
    SortedBounds(nums);
    forall x ensures x in seen <==> x in nums { SortedMembers(nums, x); }
    ExtraAndMembers(seqs);
    assert |seen| == |seen.Keys|;
    var first, last := seqs[0], seqs[|seqs| - 1];
    var gaps := Gaps(first, last, seen);
    RepeatsOfSorted(nums);
    r := SeriesResult(|seqs|, first, last, last - first + 1, gaps, duplicates);
  }

  /** check_numbering, as a table from series to result. */
  method CheckNumbering(numbers: seq<string>, toInt: string -> Option<int>) returns (results: map<string, SeriesResult>)
    ensures forall s :: s in results <==> InSeries(numbers, toInt, s) != []
    ensures forall s :: s in results ==>
              Describes(results[s], InSeries(numbers, toInt, s))
              && results[s].expected == results[s].count - |results[s].duplicates| + |results[s].gaps|
  {
    var groups := GroupBySeries(numbers, toInt);
    results := map[];
    var rest := groups.Keys;
    while rest != {}
      invariant rest <= groups.Keys && results.Keys == groups.Keys - rest
      invariant forall s :: s in results ==>
                  Describes(results[s], InSeries(numbers, toInt, s))
                  && results[s].expected == results[s].count - |results[s].duplicates| + |results[s].gaps|
      decreases |rest|
    {
      var series :| series in rest;
      var r := AnalyseSeries(groups[series]);
      results := results[series := r];
      rest := rest - {series};
    }
  }

  /** The description pins the result down: there is only one for given numbers. */
  lemma DescriptionIsUnique(a: SeriesResult, b: SeriesResult, nums: seq<int>)
    requires Describes(a, nums) && Describes(b, nums)
    ensures a == b
  {
    if nums != [] {
      SameIncreasing(a.gaps, b.gaps);
      forall x ensures multiset(a.duplicates)[x] == multiset(b.duplicates)[x] {
        if x !in nums { assert x !in a.duplicates && x !in b.duplicates; }
      }
      SameAscending(a.duplicates, b.duplicates);
    }
  }

  lemma IncreasingTail(xs: seq<int>, x: int)
    requires xs != [] && Increasing(xs)
    ensures Increasing(xs[1..])
    ensures x in xs[1..] <==> x in xs && x != xs[0]
  {
    assert xs == [xs[0]] + xs[1..];
  }

  lemma {:induction false} SameIncreasing(a: seq<int>, b: seq<int>)
    requires Increasing(a) && Increasing(b) && forall x :: x in a <==> x in b
    ensures a == b
    decreases |a|
  {
    assert (a == [] || a[0] in a) && (b == [] || b[0] in b);
    if a == [] {
    } else {
      assert a[0] == b[0];
      forall x ensures x in a[1..] <==> x in b[1..] {
        IncreasingTail(a, x);
        IncreasingTail(b, x);
      }
      IncreasingTail(a, a[0]);
      IncreasingTail(b, b[0]);
      SameIncreasing(a[1..], b[1..]);
      assert a == [a[0]] + a[1..] && b == [b[0]] + b[1..];
    }
  }

  lemma TailBag(a: seq<int>)
    requires a != []
    ensures multiset(a[1..]) == multiset(a) - multiset{a[0]}
  {
    assert a == [a[0]] + a[1..];
  }

  lemma SameHead(a: seq<int>, b: seq<int>)
    requires Ascending(a) && Ascending(b) && multiset(a) == multiset(b) && a != []
    ensures b != [] && a[0] == b[0]
  {
    assert a[0] in multiset(b);
    assert b[0] in multiset(a);
  }

  lemma {:induction false} SameAscending(a: seq<int>, b: seq<int>)
    requires Ascending(a) && Ascending(b) && multiset(a) == multiset(b)
    ensures a == b
    decreases |a|
  {
    if a == [] {
      assert |b| == |multiset(b)|;
    } else {
      SameHead(a, b);
      TailBag(a);
      TailBag(b);
      SameAscending(a[1..], b[1..]);
      assert a == [a[0]] + a[1..] && b == [b[0]] + b[1..];
    }
  }

  function Run(first: int, count: nat): (run: seq<int>)
    ensures |run| == count && forall i :: 0 <= i < count ==> run[i] == first + i
  {
    seq(count, i => first + i)
  }

  lemma RunMembers(first: int, count: nat, x: int)
    ensures x in Run(first, count) <==> first <= x < first + count
  {
    assert first <= x < first + count ==> Run(first, count)[x - first] == x;
  }

  lemma SortedMembers(nums: seq<int>, x: int)
    ensures x in Sorted(nums) <==> x in nums
    ensures multiset(Sorted(nums))[x] == multiset(nums)[x]
  {
    SortSorts(nums);
    assert x in multiset(Sorted(nums)) <==> x in multiset(nums);
  }

  /** Nothing repeated: the sorted numbers go up strictly. */
  lemma NoRepeatsIncreasing(nums: seq<int>)
    requires Repeats([], nums)
    ensures Increasing(Sorted(nums))
  {
    SortSorts(nums);
    var sorted := Sorted(nums);
    forall i, j | 0 <= i < j < |sorted| ensures sorted[i] < sorted[j] {
      OccursTwiceIfEqual(sorted, i, j);
      SortedMembers(nums, sorted[i]);
    }
  }

  /** Strictly increasing numbers repeat nothing. */
  lemma IncreasingNoRepeats(duplicates: seq<int>, nums: seq<int>)
    requires Repeats(duplicates, nums) && Increasing(Sorted(nums))
    ensures duplicates == []
  {
    if duplicates != [] {
      var x := duplicates[0];
      assert multiset(duplicates)[x] > 0 && x in duplicates;
      OccursOnce(Sorted(nums), x);
      SortedMembers(nums, x);
    }
  }

  /** The numbers from first to last are all there exactly when nothing is missing between them. */
  ghost predicate Fills(nums: seq<int>, first: int, last: int) {
    forall x :: x in nums <==> first <= x <= last
  }

  lemma FillsExactly(r: SeriesResult, nums: seq<int>)
    requires Describes(r, nums) && nums != []
    ensures r.gaps == [] <==> Fills(nums, r.first, r.last)
  {
    assert r.gaps == [] || r.gaps[0] in r.gaps;
  }

  lemma FilledSorts(nums: seq<int>, first: int, last: int)
    requires first <= last + 1 && Increasing(Sorted(nums)) && Fills(nums, first, last)
    ensures Sorted(nums) == Run(first, last - first + 1)
  {
    var run := Run(first, last - first + 1);
    forall x ensures x in Sorted(nums) <==> x in run {
      SortedMembers(nums, x);
      RunMembers(first, last - first + 1, x);
    }
    SameIncreasing(Sorted(nums), run);
  }

  lemma SortedFills(nums: seq<int>, first: int, last: int)
    requires first <= last + 1 && Sorted(nums) == Run(first, last - first + 1)
    ensures Increasing(Sorted(nums)) && Fills(nums, first, last)
  {
    forall x ensures x in nums <==> first <= x <= last {
      SortedMembers(nums, x);
      RunMembers(first, last - first + 1, x);
    }
  }

  /** A series is reported in order exactly when its sorted numbers are first, first + 1, ..., last. */
  lemma OkMeansConsecutive(r: SeriesResult, nums: seq<int>)
    requires Describes(r, nums) && nums != []
    ensures r.Ok() <==> Sorted(nums) == Run(r.first, r.last - r.first + 1)
  {
    FillsExactly(r, nums);
    if r.Ok() {
      NoRepeatsIncreasing(nums);
      FilledSorts(nums, r.first, r.last);
    }
    if Sorted(nums) == Run(r.first, r.last - r.first + 1) {
      SortedFills(nums, r.first, r.last);
      IncreasingNoRepeats(r.duplicates, nums);
    }
  }

  lemma OccursTwiceIfEqual(xs: seq<int>, i: nat, j: nat)
    requires i < j < |xs|
    ensures xs[i] == xs[j] ==> multiset(xs)[xs[i]] >= 2
  {
    assert xs == xs[..j] + [xs[j]] + xs[j + 1..];
    assert xs[i] in xs[..j];
  }

  lemma {:induction false} OccursOnce(xs: seq<int>, x: int)
    requires Increasing(xs)
    ensures multiset(xs)[x] <= 1
  {
    if xs == [] {
    } else {
      assert xs == [xs[0]] + xs[1..];
      OccursOnce(xs[1..], x);
      IncreasingTail(xs, x);
      assert x in multiset(xs[1..]) <==> x in xs[1..];
    }
  }
}
