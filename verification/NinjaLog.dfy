/**
  Reading the ninja log in `tools/report_build_time_ninja.py`: records are grouped by command
  hash, and a record that cannot belong to the build seen so far starts the grouping afresh.
 */
module NinjaLog {
  import opened BuildReport

  /** A log line: one of five fields, or one that was cut short. */
  datatype Line = Corrupt | Entry(record: Record)

  datatype Record = Record(startMs: int, endMs: int, name: string, hash: string)

  /** A build step: the commands with one hash, the times of the first of them, and their outputs. */
  datatype Group = Group(hash: string, start: real, end: real, names: seq<string>)

  function Seconds(ms: int): real { ms as real / 1000.0 }

  function Records(lines: seq<Line>): seq<Record> {
    if lines == [] then []
    else
      var n := |lines| - 1;
      Records(lines[..n]) + match lines[n] { case Corrupt => [] case Entry(r) => [r] }
  }

  lemma {:induction false} RecordsNext(lines: seq<Line>, i: nat)
    requires i < |lines|
    ensures Records(lines[..i + 1]) ==
            if lines[i].Corrupt? then Records(lines[..i]) else Records(lines[..i]) + [lines[i].record]
  {
    assert lines[..i + 1][..i] == lines[..i];
  }

  // ---------- Grouping ----------

  predicate HasHash(groups: seq<Group>, h: string) {
    exists k :: 0 <= k < |groups| && groups[k].hash == h
  }

  /** The position of the first group with hash `h`, or the length. */
  function Find(groups: seq<Group>, h: string): (k: nat)
    ensures k <= |groups|
    ensures k < |groups| ==> groups[k].hash == h
    ensures forall i :: 0 <= i < k ==> groups[i].hash != h
  {
    if groups == [] then 0
    else if groups[0].hash == h then 0
    else 1 + Find(groups[1..], h)
  }

  function Add(groups: seq<Group>, r: Record): seq<Group> {
    var k := Find(groups, r.hash);
    if k < |groups| then groups[k := groups[k].(names := groups[k].names + [r.name])]
    else groups + [Group(r.hash, Seconds(r.startMs), Seconds(r.endMs), [r.name])]
  }

  function Grouped(rs: seq<Record>): seq<Group> {
    if rs == [] then [] else Add(Grouped(rs[..|rs| - 1]), rs[|rs| - 1])
  }

  function NamesWith(rs: seq<Record>, h: string): seq<string> {
    if rs == [] then []
    else
      var r := rs[|rs| - 1];
      NamesWith(rs[..|rs| - 1], h) + if r.hash == h then [r.name] else []
  }

  /** `i` is the first record of `rs` with hash `h`. */
  ghost predicate FirstWith(rs: seq<Record>, h: string, i: nat) {
    i < |rs| && rs[i].hash == h && forall j :: 0 <= j < i ==> rs[j].hash != h
  }

  /** `g` collects exactly the records of `rs` with its hash, in order, with the first one's times. */
  ghost predicate Collects(rs: seq<Record>, g: Group) {
    && g.names == NamesWith(rs, g.hash)
    && exists i: nat :: FirstWith(rs, g.hash, i) && g.start == Seconds(rs[i].startMs) && g.end == Seconds(rs[i].endMs)
  }

  ghost predicate DistinctHashes(groups: seq<Group>) {
    forall j, k :: 0 <= j < k < |groups| ==> groups[j].hash != groups[k].hash
  }

  lemma {:induction false} CollectsMore(rs: seq<Record>, r: Record, g: Group)
    requires Collects(rs, g)
    ensures Collects(rs + [r], g.(names := g.names + if r.hash == g.hash then [r.name] else []))
  {
    assert (rs + [r])[..|rs|] == rs;
    var i: nat :| FirstWith(rs, g.hash, i) && g.start == Seconds(rs[i].startMs) && g.end == Seconds(rs[i].endMs);
    assert FirstWith(rs + [r], g.hash, i);
  }

  lemma {:induction false} NoNames(rs: seq<Record>, h: string)
    requires forall i :: 0 <= i < |rs| ==> rs[i].hash != h
    ensures NamesWith(rs, h) == []
  {
    if rs == [] {
    } else {
      NoNames(rs[..|rs| - 1], h);
    }
  }

  lemma {:induction false} CollectsFirst(rs: seq<Record>, r: Record)
    requires forall i :: 0 <= i < |rs| ==> rs[i].hash != r.hash
    ensures Collects(rs + [r], Group(r.hash, Seconds(r.startMs), Seconds(r.endMs), [r.name]))
  {
    assert (rs + [r])[..|rs|] == rs;
    NoNames(rs, r.hash);
    assert FirstWith(rs + [r], r.hash, |rs|);
  }

  /** Filing one more record keeps every group exact. */
  lemma {:induction false} AddCollects(rs: seq<Record>, groups: seq<Group>, r: Record, j: nat)
    requires forall k :: 0 <= k < |groups| ==> Collects(rs, groups[k])
    requires forall i :: 0 <= i < |rs| ==> HasHash(groups, rs[i].hash)
    requires DistinctHashes(groups) && j < |Add(groups, r)|
    ensures Collects(rs + [r], Add(groups, r)[j])
  {
    var k := Find(groups, r.hash);
    if j < |groups| {
      assert groups[j].hash == r.hash <==> j == k;
      hide Collects;
      CollectsMore(rs, r, groups[j]);
      if j != k { assert groups[j].(names := groups[j].names + []) == groups[j]; }
    } else {
      forall i | 0 <= i < |rs| ensures rs[i].hash != r.hash { assert HasHash(groups, rs[i].hash); }
      CollectsFirst(rs, r);
    }
  }

  lemma {:induction false} AddHas(groups: seq<Group>, r: Record, h: string)
    requires HasHash(groups, h) || h == r.hash
    ensures HasHash(Add(groups, r), h)
  {
    var k := Find(groups, r.hash);
    if h == r.hash {
      assert Add(groups, r)[k].hash == h;
    } else {
      var j :| 0 <= j < |groups| && groups[j].hash == h;
      assert Add(groups, r)[j].hash == h;
    }
  }

  lemma {:induction false} AddStaysDistinct(groups: seq<Group>, r: Record)
    requires DistinctHashes(groups)
    ensures DistinctHashes(Add(groups, r))
  {
  }

  lemma {:induction false} GroupedLast(rs: seq<Record>)
    requires rs != []
    ensures Grouped(rs) == Add(Grouped(rs[..|rs| - 1]), rs[|rs| - 1])
  {
    hide Add;
  }

  lemma {:induction false} NoGroups()
    ensures Grouped([]) == [] && DistinctHashes([])
  {
  }

  /** One group per hash, each with exactly its records, and none left out. */
  lemma {:induction false} GroupedCollects(rs: seq<Record>)
    ensures DistinctHashes(Grouped(rs))
    ensures forall k :: 0 <= k < |Grouped(rs)| ==> Collects(rs, Grouped(rs)[k])
    ensures forall i :: 0 <= i < |rs| ==> HasHash(Grouped(rs), rs[i].hash)
  {
    hide *;
    if rs == [] {
      NoGroups();
    } else {
      var n := |rs| - 1;
      var before, r := rs[..n], rs[n];
      var groups := Grouped(before);
      GroupedCollects(before);
      GroupedLast(rs);
      AddStaysDistinct(groups, r);
      assert rs == before + [r];
      forall j | 0 <= j < |Add(groups, r)| ensures Collects(rs, Add(groups, r)[j]) {
        AddCollects(before, groups, r, j);
      }
      forall i | 0 <= i < |rs| ensures HasHash(Add(groups, r), rs[i].hash) {
        if i < n { assert HasHash(groups, before[i].hash); }
        AddHas(groups, r, rs[i].hash);
      }
    }
  }

  /** A thousand times a group's times are the milliseconds of its first record. */
  lemma {:induction false} GroupTimesInMs(rs: seq<Record>, k: nat)
    requires k < |Grouped(rs)|
    ensures var g := Grouped(rs)[k];
            exists i: nat :: FirstWith(rs, g.hash, i)
              && 1000.0 * g.start == rs[i].startMs as real && 1000.0 * g.end == rs[i].endMs as real
              && 1000.0 * (g.end - g.start) == (rs[i].endMs - rs[i].startMs) as real
  {
    GroupedCollects(rs);
    hide Grouped, NamesWith;
    var g := Grouped(rs)[k];
    assert Collects(rs, g);
    var i: nat :| FirstWith(rs, g.hash, i) && g.start == Seconds(rs[i].startMs) && g.end == Seconds(rs[i].endMs);
  }

  // ---------- Where the last build begins ----------

  /** Some record of `kept` has the hash of `r` and other times. */
  ghost predicate Disagrees(kept: seq<Record>, r: Record) {
    exists i :: 0 <= i < |kept| && kept[i].hash == r.hash && (kept[i].startMs != r.startMs || kept[i].endMs != r.endMs)
  }

  /** Where the current build begins once `n` records are read. */
  ghost function BuildStart(rs: seq<Record>, n: nat): (j: nat)
    requires n <= |rs|
    ensures j <= n && (n > 0 ==> j < n)
  {
    if n <= 1 then 0
    else
      var j := BuildStart(rs, n - 1);
      if rs[n - 1].endMs < rs[n - 2].endMs || Disagrees(rs[j..n - 1], rs[n - 1]) then n - 1 else j
  }

  /** Records that could come from one build: end times never go back, and a hash keeps its times. */
  ghost predicate OneBuild(rs: seq<Record>) {
    && (forall a, b :: 0 <= a < b < |rs| ==> rs[a].endMs <= rs[b].endMs)
    && (forall a, b :: 0 <= a < b < |rs| && rs[a].hash == rs[b].hash ==>
          rs[a].startMs == rs[b].startMs && rs[a].endMs == rs[b].endMs)
  }

  lemma {:induction false} BuildStartNext(rs: seq<Record>, n: nat)
    requires n <= |rs|
    ensures n <= 1 ==> BuildStart(rs, n) == 0
    ensures n > 1 ==>
              var j := BuildStart(rs, n - 1);
              BuildStart(rs, n) ==
                if rs[n - 1].endMs < rs[n - 2].endMs || Disagrees(rs[j..n - 1], rs[n - 1]) then n - 1 else j
  {
    hide Disagrees;
  }

  lemma {:induction false} LastBuildIsOneBuild(rs: seq<Record>, n: nat)
    requires n <= |rs|
    ensures OneBuild(rs[BuildStart(rs, n)..n])
  {
    hide OneBuild, Disagrees, BuildStart;
    BuildStartNext(rs, n);
    if n <= 1 {
      FewRecords(rs[BuildStart(rs, n)..n]);
    } else {
      LastBuildIsOneBuild(rs, n - 1);
      var j := BuildStart(rs, n - 1);
      var seg := rs[j..n - 1];
      if BuildStart(rs, n) == n - 1 {
        assert rs[n - 1..n] == [rs[n - 1]];
        FewRecords([rs[n - 1]]);
      } else {
        assert rs[j..n] == seg + [rs[n - 1]];
        assert seg[|seg| - 1] == rs[n - 2];
        FitsAtEnd(seg, rs[n - 1]);
      }
    }
  }

  lemma {:induction false} FewRecords(rs: seq<Record>)
    requires |rs| <= 1
    ensures OneBuild(rs)
  {
  }

  lemma {:induction false} FitsAtEnd(s: seq<Record>, r: Record)
    requires s != [] && OneBuild(s) && s[|s| - 1].endMs <= r.endMs && !Disagrees(s, r)
    ensures OneBuild(s + [r])
  {
    var t, n := s + [r], |s|;
    assert forall a :: 0 <= a < n ==> t[a] == s[a];
    forall a | 0 <= a < n ensures s[a].endMs <= r.endMs {
      assert a < n - 1 ==> s[a].endMs <= s[n - 1].endMs;
    }
  }

  /** One build stays one when records are taken off its front. */
  lemma {:induction false} OneBuildSuffix(rs: seq<Record>, i: nat, j: nat, n: nat)
    requires i <= j <= n <= |rs| && OneBuild(rs[i..n])
    ensures OneBuild(rs[j..n])
  {
    var s, t := rs[i..n], rs[j..n];
    assert forall a :: 0 <= a < |t| ==> t[a] == s[j - i + a];
  }

  /** Records `j` to `n - 1` fit with the record before them: it does not end later than the first
      of them, and none has its hash with other times. */
  ghost predicate FitsBefore(rs: seq<Record>, j: nat, n: nat)
    requires 0 < j < n <= |rs|
  {
    rs[j - 1].endMs <= rs[j].endMs && !Disagrees(rs[j..n], rs[j - 1])
  }

  lemma {:induction false} FitsInFront(r: Record, s: seq<Record>)
    requires s != [] && OneBuild(s) && r.endMs <= s[0].endMs && !Disagrees(s, r)
    ensures OneBuild([r] + s)
  {
    var t := [r] + s;
    assert forall a :: 0 < a < |t| ==> t[a] == s[a - 1];
    forall a, b | 0 <= a < b < |t|
      ensures t[a].endMs <= t[b].endMs
      ensures t[a].hash == t[b].hash ==> t[a].startMs == t[b].startMs && t[a].endMs == t[b].endMs
    {
      if a > 0 {
        assert s[a - 1].endMs <= s[b - 1].endMs;
      } else {
        assert b > 1 ==> s[0].endMs <= s[b - 1].endMs;
      }
    }
  }

  lemma {:induction false} FrontOfBuildFits(r: Record, s: seq<Record>)
    requires s != [] && OneBuild([r] + s)
    ensures r.endMs <= s[0].endMs && !Disagrees(s, r)
  {
    var t := [r] + s;
    assert t[0] == r && t[1] == s[0];
    forall a | 0 <= a < |s| ensures s[a].hash == r.hash ==> s[a].startMs == r.startMs && s[a].endMs == r.endMs {
      assert t[a + 1] == s[a];
    }
  }

  lemma {:induction false} OneBuildOneMore(rs: seq<Record>, j: nat, n: nat)
    requires 0 < j < n <= |rs| && OneBuild(rs[j..n])
    ensures OneBuild(rs[j - 1..n]) <==> FitsBefore(rs, j, n)
  {
    hide OneBuild, Disagrees;
    var r, s := rs[j - 1], rs[j..n];
    assert rs[j - 1..n] == [r] + s;
    if FitsBefore(rs, j, n) {
      FitsInFront(r, s);
    } else if OneBuild([r] + s) {
      FrontOfBuildFits(r, s);
    }
  }

  /** What is kept is the longest stretch of records up to the last that could be one build, exactly
      when it reaches back to the first record or does not fit with the record before it. */
  lemma {:induction false} KeptIsLongestExactly(rs: seq<Record>, n: nat)
    requires n <= |rs|
    ensures var j := BuildStart(rs, n);
            (forall i :: 0 <= i < j ==> !OneBuild(rs[i..n])) <==> j == 0 || !FitsBefore(rs, j, n)
  {
    var j := BuildStart(rs, n);
    if j > 0 {
      LastBuildIsOneBuild(rs, n);
      OneBuildOneMore(rs, j, n);
      if i :| 0 <= i < j && OneBuild(rs[i..n]) { OneBuildSuffix(rs, i, j - 1, n); }
    }
  }

  /** A hash with other times may cut more than it must: here the second record is dropped although
      it and the third could be one build. */
  lemma {:induction false} CutByHashMayDropMore()
    ensures var rs := [Record(0, 1, "a", "x"), Record(0, 2, "b", "y"), Record(3, 4, "a", "x")];
            BuildStart(rs, 3) == 2 && OneBuild(rs[1..])
  {
    var rs := [Record(0, 1, "a", "x"), Record(0, 2, "b", "y"), Record(3, 4, "a", "x")];
    assert rs[0..1] == [rs[0]] && !Disagrees([rs[0]], rs[1]);
    assert BuildStart(rs, 1) == 0;
    assert BuildStart(rs, 2) == 0;
    assert rs[0].hash == rs[2].hash;
    assert rs[0..2][0] == rs[0] && Disagrees(rs[0..2], rs[2]);
    assert rs[1..] == [rs[1], rs[2]];
  }

  // ---------- Reading ----------

  /** The dictionary, in insertion order, stands for `groups`. */
  ghost predicate Represents(dict: map<string, Target>, order: seq<string>, groups: seq<Group>)
    reads dict.Values
  {
    && |order| == |groups|
    && (forall h <- dict :: h in order)
    && (forall k :: 0 <= k < |order| ==>
          && order[k] in dict && order[k] == groups[k].hash
          && dict[order[k]].start == groups[k].start && dict[order[k]].end == groups[k].end
          && dict[order[k]].targets == groups[k].names)
    && (forall j, k :: 0 <= j < k < |order| ==> order[j] != order[k] && dict[order[j]] != dict[order[k]])
  }

  ghost predicate Matches(targets: seq<Target>, groups: seq<Group>)
    reads targets
  {
    && |targets| == |groups|
    && forall k :: 0 <= k < |targets| ==>
         targets[k].start == groups[k].start && targets[k].end == groups[k].end && targets[k].targets == groups[k].names
  }

  lemma {:induction false} FindInOrder(dict: map<string, Target>, order: seq<string>, groups: seq<Group>, h: string)
    requires Represents(dict, order, groups)
    ensures h in dict <==> Find(groups, h) < |groups|
    ensures h in dict ==> order[Find(groups, h)] == h
  {
    if h in dict {
      var k :| 0 <= k < |order| && order[k] == h;
      assert groups[k].hash == h;
    }
  }

  /** Appends the record's output to the target with its hash, creating the target if need be. */
  method Insert(dict: map<string, Target>, order: seq<string>, r: Record, ghost groups: seq<Group>)
    returns (dict': map<string, Target>, order': seq<string>)
    requires Represents(dict, order, groups)
    modifies dict.Values`targets
    ensures Represents(dict', order', Add(groups, r))
    ensures fresh(dict'.Values - dict.Values)
  {
    hide Find, Seconds;
    FindInOrder(dict, order, groups, r.hash);
    if r.hash in dict {
      var target := dict[r.hash];
      target.targets := target.targets + [r.name];
      return dict, order;
    }
    var target := new Target(Seconds(r.startMs), Seconds(r.endMs));
    target.targets := [r.name];
    dict', order' := dict[r.hash := target], order + [r.hash];
  }

  lemma {:induction false} SecondsOrder(a: int, b: int)
    ensures Seconds(a) < Seconds(b) <==> a < b
    ensures Seconds(a) == Seconds(b) <==> a == b
  {
  }

  lemma {:induction false} BuildStartPrefix(rs: seq<Record>, s: seq<Record>, n: nat)
    requires n <= |rs| && rs <= s
    ensures BuildStart(rs, n) == BuildStart(s, n)
  {
    if n <= 1 {
    } else {
      BuildStartPrefix(rs, s, n - 1);
      var j := BuildStart(rs, n - 1);
      assert rs[j..n - 1] == s[j..n - 1];
    }
  }

  /** The target found under a record's hash has other times exactly when some record does. */
  lemma {:induction false} OtherTimes(kept: seq<Record>, r: Record, k: nat)
    requires OneBuild(kept) && k == Find(Grouped(kept), r.hash)
    ensures Disagrees(kept, r) <==>
              && k < |Grouped(kept)|
              && (Grouped(kept)[k].start != Seconds(r.startMs) || Grouped(kept)[k].end != Seconds(r.endMs))
  {
    GroupedCollects(kept);
    hide Grouped, NamesWith;
    if k < |Grouped(kept)| {
      var g := Grouped(kept)[k];
      assert Collects(kept, g);
      var i: nat :| FirstWith(kept, r.hash, i)
                    && g.start == Seconds(kept[i].startMs) && g.end == Seconds(kept[i].endMs);
      SecondsOrder(kept[i].startMs, r.startMs);
      SecondsOrder(kept[i].endMs, r.endMs);
    } else {
      forall m | 0 <= m < |kept| ensures kept[m].hash != r.hash { assert HasHash(Grouped(kept), kept[m].hash); }
    }
  }

  /** The records that count: all of them, or those of the last build. */
  ghost function Kept(rs: seq<Record>, showAll: bool): seq<Record> {
    if showAll then rs else rs[BuildStart(rs, |rs|)..]
  }

  /** Reading one more record either extends what is kept or starts it afresh. */
  lemma {:induction false} KeptNext(rs: seq<Record>, r: Record, showAll: bool)
    ensures var kept := Kept(rs, showAll);
            var cut := !showAll && rs != [] &&
                       (r.endMs < rs[|rs| - 1].endMs || Disagrees(kept, r));
            Kept(rs + [r], showAll) == if cut then [r] else kept + [r]
  {
    var s := rs + [r];
    if !showAll && rs != [] {
      BuildStartPrefix(rs, s, |rs|);
      var j := BuildStart(rs, |rs|);
      assert s[|rs| - 1] == rs[|rs| - 1];
      assert s[j..] == rs[j..] + [r] && s[|rs|..] == [r];
    }
  }

  /** A record is kept with those before it exactly when together they could be one build, and otherwise
      starts afresh; all are kept when all are asked for. */
  lemma {:induction false} KeptIsGreedy(rs: seq<Record>, r: Record)
    ensures Kept(rs + [r], true) == rs + [r]
    ensures var kept := Kept(rs, false);
            Kept(rs + [r], false) == if OneBuild(kept + [r]) then kept + [r] else [r]
  {
    hide OneBuild, Disagrees, BuildStart;
    KeptNext(rs, r, true);
    KeptNext(rs, r, false);
    var kept := Kept(rs, false);
    LastBuildIsOneBuild(rs, |rs|);
    var j := BuildStart(rs, |rs|);
    assert rs[j..|rs|] == rs[j..] == kept;
    if rs == [] {
      assert kept + [r] == [r];
      FewRecords([r]);
    } else {
      assert kept[|kept| - 1] == rs[|rs| - 1];
      if r.endMs < rs[|rs| - 1].endMs || Disagrees(kept, r) {
        if OneBuild(kept + [r]) { EndOfBuildFits(kept, r); }
      } else {
        FitsAtEnd(kept, r);
      }
    }
  }

  lemma {:induction false} EndOfBuildFits(s: seq<Record>, r: Record)
    requires s != [] && OneBuild(s + [r])
    ensures s[|s| - 1].endMs <= r.endMs && !Disagrees(s, r)
  {
    var t, n := s + [r], |s|;
    assert t[n] == r && t[n - 1] == s[n - 1];
    forall a | 0 <= a < n ensures s[a].hash == r.hash ==> s[a].startMs == r.startMs && s[a].endMs == r.endMs {
      assert t[a] == s[a];
    }
  }

  lemma {:induction false} GroupedNext(kept: seq<Record>, r: Record)
    ensures Grouped(kept + [r]) == Add(Grouped(kept), r)
    ensures Grouped([r]) == Add([], r)
  {
    assert (kept + [r])[..|kept|] == kept;
    assert [r][..0] == [];
  }

  /** Whether the dictionary must be emptied before the record goes in. */
  method MustReset(dict: map<string, Target>, order: seq<string>, r: Record, lastEnd: real, showAll: bool,
                   ghost rs: seq<Record>)
    returns (reset: bool)
    requires Represents(dict, order, Grouped(Kept(rs, showAll)))
    requires lastEnd == LastEnd(rs)
    ensures Grouped(Kept(rs + [r], showAll)) == Add(if reset then [] else Grouped(Kept(rs, showAll)), r)
  {
    hide Grouped, Add, BuildStart, Disagrees, OneBuild, Find;
    reset := !showAll && Seconds(r.endMs) < lastEnd;
    if !reset && r.hash in dict {
      var target := dict[r.hash];
      reset := !showAll && (target.start != Seconds(r.startMs) || target.end != Seconds(r.endMs));
    }
    ghost var kept, j := Kept(rs, showAll), BuildStart(rs, |rs|);
    FindInOrder(dict, order, Grouped(kept), r.hash);
    KeptNext(rs, r, showAll);
    GroupedNext(kept, r);
    if !showAll && rs != [] {
      LastBuildIsOneBuild(rs, |rs|);
      assert rs[j..|rs|] == rs[j..];
      SecondsOrder(r.endMs, rs[|rs| - 1].endMs);
      OtherTimes(kept, r, Find(Grouped(kept), r.hash));
    }
  }

  method InOrder(dict: map<string, Target>, order: seq<string>, ghost groups: seq<Group>)
    returns (targets: seq<Target>)
    requires Represents(dict, order, groups)
    ensures Distinct(targets) && Matches(targets, groups)
    ensures forall k :: 0 <= k < |targets| ==> targets[k] in dict.Values
  {
    targets := seq(|order|, k requires 0 <= k < |order| && order[k] in dict => dict[order[k]]);
  }

  lemma {:induction false} EmptyRepresents()
    ensures Represents(map[], [], [])
  {
  }

  /** One record: reset if need be, then file it. */
  method ReadRecord(dict: map<string, Target>, order: seq<string>, r: Record, lastEnd: real, showAll: bool,
                    ghost rs: seq<Record>)
    returns (dict': map<string, Target>, order': seq<string>)
    requires Represents(dict, order, Grouped(Kept(rs, showAll)))
    requires lastEnd == LastEnd(rs)
    modifies dict.Values`targets
    ensures Represents(dict', order', Grouped(Kept(rs + [r], showAll)))
    ensures fresh(dict'.Values - dict.Values)
  {
    hide Grouped, Kept, Add, Represents;
    var reset := MustReset(dict, order, r, lastEnd, showAll, rs);
    if reset {
      EmptyRepresents();
      dict', order' := Insert(map[], [], r, []);
    } else {
      dict', order' := Insert(dict, order, r, Grouped(Kept(rs, showAll)));
    }
  }

  /** The targets returned are the groups of the records that count, in order of first appearance. */
  method ReadTargets(lines: seq<Line>, showAll: bool) returns (targets: seq<Target>)
    ensures Distinct(targets) && fresh(targets)
    ensures Matches(targets, Grouped(Kept(Records(lines), showAll)))
  {
    var dict: map<string, Target>, order: seq<string> := map[], [];
    var lastEnd := 0.0;
    NothingRead(lines, showAll);
    hide Grouped, Kept, Records, Represents, Matches, Distinct;
    for i := 0 to |lines|
      invariant lastEnd == LastEnd(Records(lines[..i]))
      invariant fresh(dict.Values)
      invariant Represents(dict, order, Grouped(Kept(Records(lines[..i]), showAll)))
    {
      RecordsNext(lines, i);
      match lines[i]
      case Corrupt => continue;
      case Entry(r) =>
        dict, order := ReadRecord(dict, order, r, lastEnd, showAll, Records(lines[..i]));
        lastEnd := Seconds(r.endMs);
    }
    assert lines[..|lines|] == lines;
    targets := InOrder(dict, order, Grouped(Kept(Records(lines), showAll)));
  }

  ghost function LastEnd(rs: seq<Record>): real { if rs == [] then 0.0 else Seconds(rs[|rs| - 1].endMs) }

  lemma {:induction false} NothingRead(lines: seq<Line>, showAll: bool)
    ensures Records(lines[..0]) == [] && Represents(map[], [], Grouped(Kept(Records(lines[..0]), showAll)))
  {
    assert Grouped(Kept([], showAll)) == [];
    EmptyRepresents();
  }
}
