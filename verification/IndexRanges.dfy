/**
  `_format_index_ranges` of `vllm/model_inspection.py`: layer indices printed in range notation,
  and a reader that undoes it.
 */
module IndexRanges {
  import opened Common
  import Sorting

  datatype Range = Range(start: int, end: int)

  // ---------- Sorting ----------

  predicate Leq(x: int, y: int) { x <= y }

  function Sorted(s: seq<int>): (r: seq<int>)
    ensures |r| == |s|
  {
    Sorting.Sort(s, Leq)
  }

  lemma {:induction false} SortedIsSorted(s: seq<int>)
    ensures multiset(Sorted(s)) == multiset(s)
    ensures forall i, j :: 0 <= i < j < |s| ==> Sorted(s)[i] <= Sorted(s)[j]
  {
    Sorting.SortIsOrdered(s, Leq);
    var r := Sorted(s);
    forall i, j | 0 <= i < j < |r| ensures r[i] <= r[j] { assert Leq(r[i], r[j]); }
  }

  // ---------- Runs of consecutive indices ----------

  function Front(rs: seq<Range>): seq<Range>
    requires rs != []
  {
    rs[..|rs| - 1]
  }

  function Last(rs: seq<Range>): Range
    requires rs != []
  {
    rs[|rs| - 1]
  }

  /** The next index either lengthens the last range or starts a new one. */
  function Extend(rs: seq<Range>, x: int): (rs': seq<Range>)
    requires rs != []
    ensures rs' != []
  {
    if x == Last(rs).end + 1 then Front(rs) + [Range(Last(rs).start, x)] else rs + [Range(x, x)]
  }

  function Runs(s: seq<int>): (rs: seq<Range>)
    requires s != []
    ensures rs != []
  {
    var n := |s| - 1;
    if n == 0 then [Range(s[0], s[0])] else Extend(Runs(s[..n]), s[n])
  }

  function Expand(r: Range): seq<int> {
    if r.start > r.end then [] else seq(r.end - r.start + 1, i requires 0 <= i => r.start + i)
  }

  function Flatten(rs: seq<Range>): seq<int> {
    if rs == [] then [] else Flatten(rs[..|rs| - 1]) + Expand(rs[|rs| - 1])
  }

  ghost predicate Proper(rs: seq<Range>) {
    forall k :: 0 <= k < |rs| ==> rs[k].start <= rs[k].end
  }

  lemma {:induction false} ExtendKeepsProper(rs: seq<Range>, x: int)
    requires rs != [] && Proper(rs)
    ensures Proper(Extend(rs, x)) && Last(Extend(rs, x)).end == x
  {
  }

  lemma {:induction false} RunsEndAtLast(s: seq<int>)
    requires s != []
    ensures Proper(Runs(s)) && Last(Runs(s)).end == s[|s| - 1]
  {
    var n := |s| - 1;
    if n == 0 {
    } else {
      RunsEndAtLast(s[..n]);
      ExtendKeepsProper(Runs(s[..n]), s[n]);
    }
  }

  lemma {:induction false} FlattenAppend(rs: seq<Range>, r: Range)
    ensures Flatten(rs + [r]) == Flatten(rs) + Expand(r)
  {
    assert (rs + [r])[..|rs|] == rs;
  }

  lemma {:induction false} ExpandLonger(a: int, b: int)
    requires a <= b
    ensures Expand(Range(a, b + 1)) == Expand(Range(a, b)) + [b + 1]
    ensures Expand(Range(a, a)) == [a]
  {
  }

  lemma {:induction false} ExtendLast(front: seq<Range>, last: Range)
    requires last.start <= last.end
    ensures Flatten(front + [Range(last.start, last.end + 1)]) == Flatten(front + [last]) + [last.end + 1]
  {
    FlattenAppend(front, last);
    FlattenAppend(front, Range(last.start, last.end + 1));
    ExpandLonger(last.start, last.end);
    hide Flatten, Expand;
    var f, e, x := Flatten(front), Expand(last), last.end + 1;
    assert f + (e + [x]) == (f + e) + [x];
  }

  lemma {:induction false} ExtendSpellsOut(rs: seq<Range>, x: int)
    requires rs != [] && Proper(rs)
    ensures Flatten(Extend(rs, x)) == Flatten(rs) + [x]
  {
    if x == Last(rs).end + 1 {
      assert rs == Front(rs) + [Last(rs)];
      ExtendLast(Front(rs), Last(rs));
    } else {
      FlattenAppend(rs, Range(x, x));
      ExpandLonger(x, x);
    }
  }

  lemma {:induction false} SingleSpellsOut(s: seq<int>)
    requires |s| == 1
    ensures Flatten(Runs(s)) == s
  {
    var r := Range(s[0], s[0]);
    ExpandLonger(s[0], s[0]);
    FlattenAppend([], r);
    assert [] + [r] == [r];
    hide Flatten, Expand;
    assert s == [s[0]];
  }

  /** The ranges spell out exactly the list, repeats included. */
  lemma {:induction false} RunsSpellOut(s: seq<int>)
    requires s != []
    ensures Flatten(Runs(s)) == s
  {
    hide Runs, Flatten;
    if |s| == 1 {
      SingleSpellsOut(s);
    } else {
      var n := |s| - 1;
      RunsSpellOut(s[..n]);
      SpellOutNext(s, n);
      assert s[..n] + [s[n]] == s;
    }
  }

  lemma {:induction false} SpellOutNext(s: seq<int>, n: nat)
    requires 0 < n == |s| - 1
    ensures Flatten(Runs(s)) == Flatten(Runs(s[..n])) + [s[n]]
  {
    RunsEndAtLast(s[..n]);
    hide Flatten;
    ExtendSpellsOut(Runs(s[..n]), s[n]);
  }

  /** Each range ends short of the next, with a gap: they are increasing, disjoint and cannot be joined. */
  ghost predicate Gapped(rs: seq<Range>) {
    forall k :: 0 <= k < |rs| - 1 ==> rs[k].end + 1 < rs[k + 1].start
  }

  lemma {:induction false} RunsAreMaximal(s: seq<int>)
    requires s != [] && forall i, j :: 0 <= i < j < |s| ==> s[i] < s[j]
    ensures Gapped(Runs(s))
  {
    var n := |s| - 1;
    if n == 0 {
    } else {
      RunsAreMaximal(s[..n]);
      RunsEndAtLast(s[..n]);
      assert s[..n][n - 1] == s[n - 1] && s[n - 1] < s[n];
    }
  }

  lemma {:induction false} OnceEach(s: seq<int>, x: int)
    requires forall i, j :: 0 <= i < j < |s| ==> s[i] != s[j]
    ensures multiset(s)[x] <= 1
  {
    if s == [] {
    } else {
      var n := |s| - 1;
      OnceEach(s[..n], x);
      assert s == s[..n] + [s[n]];
      if x == s[n] { assert x !in s[..n]; }
    }
  }

  lemma {:induction false} TwiceCounts(s: seq<int>, i: nat, j: nat)
    requires i < j < |s| && s[i] == s[j]
    ensures multiset(s)[s[i]] >= 2
  {
    assert s == s[..j] + [s[j]] + s[j + 1..];
    assert s[..j][i] == s[i];
    assert s[i] in multiset(s[..j]);
  }

  /** For distinct indices the printed ranges are increasing, disjoint and never adjacent. */
  lemma {:induction false} DistinctGivesGaps(indices: seq<int>)
    requires indices != [] && forall i, j :: 0 <= i < j < |indices| ==> indices[i] != indices[j]
    ensures Gapped(Runs(Sorted(indices))) && Proper(Runs(Sorted(indices)))
  {
    var s := Sorted(indices);
    SortedIsSorted(indices);
    forall i, j | 0 <= i < j < |s| ensures s[i] < s[j] {
      OnceEach(indices, s[i]);
      if s[i] == s[j] { TwiceCounts(s, i, j); }
    }
    RunsAreMaximal(s);
    RunsEndAtLast(s);
  }

  // ---------- Text ----------

  function DigitChar(d: nat): char
    requires d < 10
  {
    "0123456789"[d]
  }

  function DigitValue(c: char): nat { if '0' <= c <= '9' then (c as int) - ('0' as int) else 0 }

  function Digits(n: nat): string {
    if n < 10 then [DigitChar(n)] else Digits(n / 10) + [DigitChar(n % 10)]
  }

  function Value(s: string): nat {
    if s == [] then 0 else Value(s[..|s| - 1]) * 10 + DigitValue(s[|s| - 1])
  }

  predicate Numeral(s: string) { s != [] && forall i :: 0 <= i < |s| ==> '0' <= s[i] <= '9' }

  lemma {:induction false} DigitsRead(n: nat)
    ensures Value(Digits(n)) == n && Numeral(Digits(n))
  {
    if n < 10 {
      assert Digits(n)[..0] == [];
    } else {
      DigitsRead(n / 10);
      var s := Digits(n);
      assert s[..|s| - 1] == Digits(n / 10);
    }
  }

  /** `str(n)` */
  function Text(n: int): string { if n < 0 then "-" + Digits(-n) else Digits(n) }

  function Number(s: string): int { if s != [] && s[0] == '-' then 0 - Value(s[1..]) else Value(s) }

  lemma {:induction false} TextReads(n: int)
    ensures Number(Text(n)) == n && Text(n) != []
    ensures forall j :: 0 <= j < |Text(n)| ==> Text(n)[j] != ',' && (j > 0 ==> Text(n)[j] != '-')
  {
    var d := Digits(if n < 0 then -n else n);
    DigitsRead(if n < 0 then -n else n);
    hide Digits, Value;
    assert forall j :: 0 <= j < |d| ==> d[j] != ',' && d[j] != '-';
    if n < 0 {
      var s := "-" + d;
      assert s[1..] == d && forall j :: 0 < j < |s| ==> s[j] == d[j - 1];
    }
  }

  function FormatRange(r: Range): string {
    if r.start == r.end then Text(r.start) else Text(r.start) + "-" + Text(r.end)
  }

  /** `", ".join(parts)` */
  function Join(parts: seq<string>): string {
    if parts == [] then "" else if |parts| == 1 then parts[0] else parts[0] + ", " + Join(parts[1..])
  }

  /** The first position of `c` in `s`, or the length. */
  function IndexOf(s: string, c: char): (i: nat)
    ensures i <= |s| && (i < |s| ==> s[i] == c) && forall j :: 0 <= j < i ==> s[j] != c
  {
    if s == [] || s[0] == c then 0 else 1 + IndexOf(s[1..], c)
  }

  function Split(s: string): seq<string> {
    var i := IndexOf(s, ',');
    if i == |s| then [s] else if i + 2 > |s| then [s[..i]] else [s[..i]] + Split(s[i + 2..])
  }

  /** A range is cut at its first hyphen that is not a sign. */
  function ParseRange(s: string): Range {
    var i := if s == [] then 0 else 1 + IndexOf(s[1..], '-');
    if i == |s| then Range(Number(s), Number(s)) else Range(Number(s[..i]), Number(s[i + 1..]))
  }

  function ParseParts(parts: seq<string>): (rs: seq<Range>)
    ensures |rs| == |parts|
  {
    seq(|parts|, i requires 0 <= i < |parts| => ParseRange(parts[i]))
  }

  function FormatParts(rs: seq<Range>): (parts: seq<string>)
    ensures |parts| == |rs|
  {
    seq(|rs|, i requires 0 <= i < |rs| => FormatRange(rs[i]))
  }

  /** The reader: split at the commas, read each range, and spell them out. */
  function Parse(s: string): seq<int> { Flatten(ParseParts(Split(s))) }

  lemma {:induction false} IndexOfFirst(a: string, c: char, b: string)
    requires forall j :: 0 <= j < |a| ==> a[j] != c
    ensures IndexOf(a + [c] + b, c) == |a|
    ensures IndexOf(a, c) == |a|
  {
    var s := a + [c] + b;
    assert s[|a|] == c;
    assert forall j :: 0 <= j < |a| ==> s[j] == a[j];
  }

  lemma {:induction false} RangeReadsBack(r: Range)
    ensures ParseRange(FormatRange(r)) == r
    ensures forall j :: 0 <= j < |FormatRange(r)| ==> FormatRange(r)[j] != ','
  {
    TextReads(r.start);
    TextReads(r.end);
    var a, b := Text(r.start), Text(r.end);
    hide Text, Number, IndexOf;
    assert forall j :: 0 <= j < |a[1..]| ==> a[1..][j] == a[j + 1];
    IndexOfFirst(a[1..], '-', b);
    var s := a + "-" + b;
    assert s[1..] == a[1..] + ['-'] + b;
    assert s[..|a|] == a && s[|a| + 1..] == b;
  }

  /** A single index is printed as its number, and any other range as two numbers around a hyphen; a
      number starts with no zero unless it is zero. */
  lemma {:induction false} PrintedForm(r: Range)
    ensures r.start == r.end ==>
              && Number(FormatRange(r)) == r.start
              && forall j :: 0 < j < |FormatRange(r)| ==> FormatRange(r)[j] != '-'
    ensures r.start != r.end ==> FormatRange(r) == Text(r.start) + "-" + Text(r.end)
    ensures NoLeadingZero(Text(r.start))
  {
    TextReads(r.start);
    TextPlain(r.start);
  }

  /** The first digit, after any sign, is zero only in the number zero. */
  predicate NoLeadingZero(s: string) {
    && s != "" && (s[0] == '0' ==> s == "0")
    && (s[0] == '-' ==> |s| > 1 && s[1] != '0')
  }

  lemma {:induction false} TextPlain(n: int)
    ensures NoLeadingZero(Text(n))
  {
    var m: nat := if n < 0 then -n else n;
    DigitsPlain(m);
    if n < 0 { assert ("-" + Digits(m))[1] == Digits(m)[0]; }
  }

  lemma {:induction false} DigitsPlain(n: nat)
    ensures Digits(n) != "" && Digits(n)[0] != '-' && (n > 0 ==> Digits(n)[0] != '0') && (n == 0 ==> Digits(n) == "0")
  {
    if n < 10 {
    } else {
      DigitsPlain(n / 10);
    }
  }

  lemma {:induction false} SplitUndoesJoin(parts: seq<string>)
    requires parts != [] && forall k :: 0 <= k < |parts| ==> ',' !in parts[k]
    ensures Split(Join(parts)) == parts
  {
    assert ',' !in parts[0];
    if |parts| == 1 {
      IndexOfFirst(parts[0], ',', "");
    } else {
      SplitUndoesJoin(parts[1..]);
      SplitFirst(parts[0], Join(parts[1..]));
      hide Split;
      assert parts == [parts[0]] + parts[1..];
    }
  }

  lemma {:induction false} SplitFirst(a: string, rest: string)
    requires ',' !in a
    ensures Split(a + ", " + rest) == [a] + Split(rest)
  {
    var s := a + ", " + rest;
    IndexOfFirst(a, ',', " " + rest);
    assert s == a + [','] + (" " + rest);
    assert s[..|a|] == a && s[|a| + 2..] == rest;
  }

  /** Whatever ranges are printed, the reader spells out the same indices. */
  lemma {:induction false} ParseUndoesPrint(rs: seq<Range>)
    requires rs != []
    ensures Parse(Join(FormatParts(rs))) == Flatten(rs)
  {
    var parts := FormatParts(rs);
    forall k | 0 <= k < |parts| ensures ',' !in parts[k] && ParseRange(parts[k]) == rs[k] { RangeReadsBack(rs[k]); }
    SplitUndoesJoin(parts);
    assert ParseParts(parts) == rs;
  }

  lemma {:induction false} FormatLast(rs: seq<Range>)
    requires rs != []
    ensures FormatParts(rs) == FormatParts(Front(rs)) + [FormatRange(Last(rs))]
  {
  }

  lemma {:induction false} ExtendShape(rs: seq<Range>, x: int)
    requires rs != []
    ensures var rs' := Extend(rs, x);
            if x == Last(rs).end + 1 then Front(rs') == Front(rs) && Last(rs') == Range(Last(rs).start, x)
            else Front(rs') == rs && Last(rs') == Range(x, x)
  {
  }

  lemma {:induction false} Lengthen(front: seq<Range>, a: int, b: int)
    ensures Extend(front + [Range(a, b)], b + 1) == front + [Range(a, b + 1)]
  {
  }

  lemma {:induction false} StartNew(rs: seq<Range>, b: int, x: int)
    requires rs != [] && Last(rs).end == b && x != b + 1
    ensures Extend(rs, x) == rs + [Range(x, x)]
  {
  }

  lemma {:induction false} ExampleRuns()
    ensures Runs([0, 1, 2, 4, 5, 6]) == [Range(0, 2), Range(4, 6)]
  {
    hide Runs, Extend;
    var s, r := [0, 1, 2, 4, 5, 6], [Range(0, 2)];
    FirstRun(s);
    RunsStep(s, 1);
    Lengthen([], 0, 0);
    assert [] + [Range(0, 0)] == [Range(0, 0)] && [] + [Range(0, 1)] == [Range(0, 1)];
    assert Runs(s[..2]) == [Range(0, 1)];
    RunsStep(s, 2);
    Lengthen([], 0, 1);
    assert [] + r == r;
    assert Runs(s[..3]) == r;
    RunsStep(s, 3);
    StartNew(r, 2, 4);
    assert Runs(s[..4]) == r + [Range(4, 4)];
    RunsStep(s, 4);
    Lengthen(r, 4, 4);
    assert Runs(s[..5]) == r + [Range(4, 5)];
    RunsStep(s, 5);
    Lengthen(r, 4, 5);
    assert s[..6] == s;
  }

  lemma {:induction false} ExampleTexts()
    ensures FormatRange(Range(0, 2)) == "0-2" && FormatRange(Range(4, 6)) == "4-6"
  {
    assert Digits(0) == "0" && Digits(2) == "2" && Digits(4) == "4" && Digits(6) == "6";
    hide Digits;
  }

  /** The example in the documentation of the source. */
  lemma {:induction false} DocumentedExample()
    ensures Join(FormatParts(Runs([0, 1, 2, 4, 5, 6]))) == "0-2, 4-6"
  {
    ExampleRuns();
    ExampleTexts();
    hide Runs, FormatRange;
    assert FormatParts([Range(0, 2), Range(4, 6)]) == ["0-2", "4-6"];
    assert ["0-2", "4-6"][1..] == ["4-6"];
    assert Join(["4-6"]) == "4-6";
  }

  lemma {:induction false} RunsStep(s: seq<int>, i: nat)
    requires 0 < i < |s|
    ensures Runs(s[..i + 1]) == Extend(Runs(s[..i]), s[i])
  {
    hide Extend;
    assert s[..i + 1][..i] == s[..i];
  }

  // ---------- The printer ----------

  /** Prints the maximal runs of the sorted indices; an empty list is an error. */
  method FormatIndexRanges(indices: seq<int>) returns (r: Option<string>)
    ensures r.None? <==> indices == []
    ensures r.Some? ==> r.value == Join(FormatParts(Runs(Sorted(indices))))
    ensures r.Some? ==> Parse(r.value) == Sorted(indices)
  {
    hide Runs, FormatParts, Text, Sorted, Extend, Join, Parse, Flatten;
    var s := Sorted(indices);
    if s == [] { return None; }
    var ranges: seq<string>, start, end := [], s[0], s[0];
    ghost var rs := Runs(s[..1]);
    FirstRun(s);
    for i := 1 to |s|
      invariant rs == Runs(s[..i]) && Last(rs) == Range(start, end)
      invariant ranges == FormatParts(Front(rs))
    {
      RunsStep(s, i);
      ExtendShape(rs, s[i]);
      if s[i] == end + 1 {
        end := s[i];
      } else {
        FormatLast(rs);
        ranges := ranges + [if start == end then Text(start) else Text(start) + "-" + Text(end)];
        start, end := s[i], s[i];
      }
      rs := Extend(rs, s[i]);
    }
    assert s[..|s|] == s;
    FormatLast(rs);
    ranges := ranges + [if start == end then Text(start) else Text(start) + "-" + Text(end)];
    r := Some(Join(ranges));
    ParseUndoesPrint(rs);
    RunsSpellOut(s);
  }

  lemma {:induction false} FirstRun(s: seq<int>)
    requires s != []
    ensures Runs(s[..1]) == [Range(s[0], s[0])] && FormatParts([]) == []
  {
  }
}
