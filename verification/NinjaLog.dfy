/** `ReadTargets`: the records of the last build in a `.ninja_log`, grouped by command hash. */
module NinjaLog {
  import opened BuildSummary

  /** A line of the log after splitting at tabs: not five parts, a time that is not an integer, or a
      record with its times in milliseconds. */
  datatype Line = Corrupt | BadNumber | Record(rec: Rec)

  datatype Rec = Rec(start: int, end: int, name: string, cmdhash: string)

  datatype ReadResult = Targets(targets: seq<Target>) | HeaderError | NumberError

  const HEADER := "# ninja log v5\n"

  function Seconds(milliseconds: int): real {
    milliseconds as real / 1000.0
  }

  /** The well-formed records, in log order. */
  function Records(lines: seq<Line>): seq<Rec> {
    if lines == [] then []
    else var front, last := Records(lines[..|lines| - 1]), lines[|lines| - 1];
      if last.Record? then front + [last.rec] else front
  }

  /** A line that is no record drops out by itself, and every record stays, in its place. */
  lemma {:induction false} RecordsConcat(a: seq<Line>, line: Line, b: seq<Line>)
    ensures Records(a + [line] + b) == Records(a) + (if line.Record? then [line.rec] else []) + Records(b)
  {
    var all := a + [line] + b;
    if b == [] {
      assert all == a + [line] && all[..|all| - 1] == a;
    } else {
      var n := |b| - 1;
      assert all[..|all| - 1] == a + [line] + b[..n];
      RecordsConcat(a, line, b[..n]);
    }
  }

  // ----- which records belong to the last build

  /** Records that can come from one build: end times never decrease and a command hash has one start
      and one end. */
  predicate Consistent(rs: seq<Rec>) {
    forall i, j :: 0 <= i < j < |rs| ==> Agree(rs[i], rs[j])
  }

  predicate Agree(earlier: Rec, later: Rec) {
    && earlier.end <= later.end
    && (earlier.cmdhash == later.cmdhash ==> earlier.start == later.start && earlier.end == later.end)
  }

  /** Where the last build starts: a record that is not consistent with the build so far starts a new one. */
  function LastReset(rs: seq<Rec>): (k: nat)
    ensures k <= |rs|
  {
    if rs == [] then 0
    else var k := LastReset(rs[..|rs| - 1]);
      if Consistent(rs[k..]) then k else |rs| - 1
  }

  function LastBuild(rs: seq<Rec>, showAll: bool): seq<Rec> {
    if showAll then rs else rs[LastReset(rs)..]
  }

  lemma {:induction false} LastBuildIsConsistent(rs: seq<Rec>)
    ensures Consistent(rs[LastReset(rs)..])
    ensures rs != [] ==> LastReset(rs) < |rs|
  {
    if rs != [] {
      LastBuildIsConsistent(rs[..|rs| - 1]);
      assert rs[|rs| - 1..] == [rs[|rs| - 1]];
    }
  }

  /** Record `k` does not fit the build that the records before it end with. */
  predicate BreaksAt(rs: seq<Rec>, k: nat)
    requires k < |rs|
  {
    !Consistent(rs[LastReset(rs[..k])..k + 1])
  }

  lemma BreaksAtPrefix(rs: seq<Rec>, n: nat, k: nat)
    requires k < n <= |rs|
    ensures BreaksAt(rs[..n], k) <==> BreaksAt(rs, k)
  {
    assert rs[..n][..k] == rs[..k];
    assert rs[..n][LastReset(rs[..k])..k + 1] == rs[LastReset(rs[..k])..k + 1];
  }

  /** The last build reaches back as far as the rule allows: to the start of the log, or to a record that
      does not fit the build before it. */
  lemma {:induction false} LastResetIsABreak(rs: seq<Rec>)
    requires 0 < LastReset(rs)
    ensures LastReset(rs) < |rs| && BreaksAt(rs, LastReset(rs))
    decreases |rs|
  {
    var n := |rs| - 1;
    var front := rs[..n];
    var k := LastReset(front);
    if Consistent(rs[k..]) {
      LastResetIsABreak(front);
      BreaksAtPrefix(rs, n, k);
    } else {
      assert rs[k..n + 1] == rs[k..];
    }
  }

  /** Extending a consistent build needs only the last end time and the records of the same hash. */
  lemma ConsistentExtend(build: seq<Rec>, r: Rec)
    requires Consistent(build)
    ensures Consistent(build + [r]) <==>
      (build != [] ==> build[|build| - 1].end <= r.end)
      && forall i :: 0 <= i < |build| && build[i].cmdhash == r.cmdhash ==> build[i].start == r.start && build[i].end == r.end
  {
    var all := build + [r];
    if Consistent(all) {
      forall i | 0 <= i < |build|
        ensures Agree(build[i], r)
      {
        assert Agree(all[i], all[|build|]);
      }
    } else {
      var i, j :| 0 <= i < j < |all| && !Agree(all[i], all[j]);
      assert j == |build|;
      assert i < |build| - 1 ==> Agree(build[i], build[|build| - 1]);
    }
  }

  // ----- grouping by command hash

  /** The command hashes in order of first appearance. */
  function Hashes(rs: seq<Rec>): seq<string> {
    if rs == [] then []
    else var front, h := Hashes(rs[..|rs| - 1]), rs[|rs| - 1].cmdhash;
      if h in front then front else front + [h]
  }

  /** The output names of a command, in log order. */
  function Names(rs: seq<Rec>, h: string): seq<string> {
    if rs == [] then []
    else var front, last := Names(rs[..|rs| - 1], h), rs[|rs| - 1];
      if last.cmdhash == h then front + [last.name] else front
  }

  ghost predicate HasHash(rs: seq<Rec>, h: string) {
    exists i :: 0 <= i < |rs| && rs[i].cmdhash == h
  }

  /** The first record of a command. */
  ghost function First(rs: seq<Rec>, h: string): (r: Rec)
    requires HasHash(rs, h)
    ensures r in rs && r.cmdhash == h
  {
    var n := |rs| - 1;
    if HasHash(rs[..n], h) then First(rs[..n], h) else rs[n]
  }

  lemma HasHashFront(rs: seq<Rec>, h: string)
    requires rs != []
    ensures HasHash(rs, h) <==> HasHash(rs[..|rs| - 1], h) || rs[|rs| - 1].cmdhash == h
  {
    var front := rs[..|rs| - 1];
    if HasHash(front, h) {
      var i :| 0 <= i < |front| && front[i].cmdhash == h;
      assert rs[i].cmdhash == h;
    }
    if HasHash(rs, h) {
      var i :| 0 <= i < |rs| && rs[i].cmdhash == h;
      assert i < |front| ==> front[i].cmdhash == h;
    }
  }

  lemma {:induction false} HashesFacts(rs: seq<Rec>)
    ensures forall h :: h in Hashes(rs) <==> HasHash(rs, h)
    ensures forall i, j :: 0 <= i < j < |Hashes(rs)| ==> Hashes(rs)[i] != Hashes(rs)[j]
    ensures forall h :: h !in Hashes(rs) ==> Names(rs, h) == []
  {
    if rs != [] {
      HashesFacts(rs[..|rs| - 1]);
      forall h
        ensures HasHash(rs, h) <==> HasHash(rs[..|rs| - 1], h) || rs[|rs| - 1].cmdhash == h
      {
        HasHashFront(rs, h);
      }
    }
  }

  /** Nothing is lost or duplicated by the grouping. */
  lemma {:induction false} NamesPartition(rs: seq<Rec>)
    ensures TotalNames(rs, Hashes(rs)) == |rs|
  {
    if rs != [] {
      var n := |rs| - 1;
      var front, h := rs[..n], rs[n].cmdhash;
      NamesPartition(front);
      HashesFacts(front);
      if h in Hashes(front) {
        TotalGrows(rs, Hashes(front));
      } else {
        TotalSame(rs, Hashes(front));
        assert (Hashes(front) + [h])[..|Hashes(front)|] == Hashes(front);
      }
    }
  }

  function TotalNames(rs: seq<Rec>, hashes: seq<string>): nat {
    if hashes == [] then 0
    else TotalNames(rs, hashes[..|hashes| - 1]) + |Names(rs, hashes[|hashes| - 1])|
  }

  lemma {:induction false} TotalSame(rs: seq<Rec>, hashes: seq<string>)
    requires rs != [] && rs[|rs| - 1].cmdhash !in hashes
    ensures TotalNames(rs, hashes) == TotalNames(rs[..|rs| - 1], hashes)
  {
    if hashes != [] {
      TotalSame(rs, hashes[..|hashes| - 1]);
    }
  }

  lemma {:induction false} TotalGrows(rs: seq<Rec>, hashes: seq<string>)
    requires rs != [] && rs[|rs| - 1].cmdhash in hashes
    requires forall i, j :: 0 <= i < j < |hashes| ==> hashes[i] != hashes[j]
    ensures TotalNames(rs, hashes) == TotalNames(rs[..|rs| - 1], hashes) + 1
  {
    var n := |hashes| - 1;
    if hashes[n] == rs[|rs| - 1].cmdhash {
      TotalSame(rs, hashes[..n]);
    } else {
      TotalGrows(rs, hashes[..n]);
    }
  }

  // ----- the loop

  /** `dict`, with its keys in insertion order, holds one target per command of `build`. */
  ghost predicate Holds(build: seq<Rec>, order: seq<string>, dict: map<string, Target>)
    reads dict.Values
  {
    && order == Hashes(build)
    && (forall h :: h in dict <==> HasHash(build, h))
    && (forall h :: h in dict ==> IsGroup(build, h, dict[h]))
    && (forall g, h :: g in dict && h in dict && g != h ==> dict[g] != dict[h])
  }

  ghost predicate IsGroup(build: seq<Rec>, h: string, target: Target)
    requires HasHash(build, h)
    reads target
  {
    && target.start == Seconds(First(build, h).start) && target.end == Seconds(First(build, h).end)
    && target.targets == Names(build, h)
  }

  lemma GroupGrows(build: seq<Rec>, r: Rec, h: string)
    requires HasHash(build, h)
    ensures HasHash(build + [r], h) && First(build + [r], h) == First(build, h)
    ensures Names(build + [r], h) == if r.cmdhash == h then Names(build, h) + [r.name] else Names(build, h)
  {
    assert (build + [r])[..|build|] == build;
    HasHashFront(build + [r], h);
  }

  lemma GroupStarts(build: seq<Rec>, r: Rec)
    requires !HasHash(build, r.cmdhash)
    ensures HasHash(build + [r], r.cmdhash) && First(build + [r], r.cmdhash) == r
    ensures Names(build + [r], r.cmdhash) == [r.name]
    ensures Hashes(build + [r]) == Hashes(build) + [r.cmdhash]
  {
    assert (build + [r])[..|build|] == build;
    assert (build + [r])[|build|].cmdhash == r.cmdhash;
    HasHashFront(build + [r], r.cmdhash);
    HashesFacts(build);
  }

  /** One record handled: the build so far keeps its groups or is dropped. */
  lemma BuildStep(rs: seq<Rec>, r: Rec, showAll: bool)
    ensures LastBuild(rs + [r], showAll)
         == if showAll || Consistent(LastBuild(rs, false) + [r]) then LastBuild(rs, showAll) + [r] else [r]
  {
    var k, all := LastReset(rs), rs + [r];
    assert all[..|rs|] == rs;
    assert all[k..] == rs[k..] + [r];
    assert all[|rs|..] == [r];
  }

  lemma FirstStandsForAll(build: seq<Rec>, i: nat)
    requires Consistent(build) && i < |build|
    ensures HasHash(build, build[i].cmdhash)
    ensures First(build, build[i].cmdhash).start == build[i].start && First(build, build[i].cmdhash).end == build[i].end
  {
    var f := First(build, build[i].cmdhash);
    var j :| 0 <= j < |build| && build[j] == f;
    assert j < i ==> Agree(build[j], build[i]);
    assert i < j ==> Agree(build[i], build[j]);
  }

  /** The two tests of the loop reset exactly when the record does not fit the build so far. */
  lemma ResetTest(build: seq<Rec>, r: Rec)
    requires Consistent(build) && build != []
    ensures Consistent(build + [r]) <==>
      Seconds(build[|build| - 1].end) <= Seconds(r.end)
      && (HasHash(build, r.cmdhash) ==>
            Seconds(First(build, r.cmdhash).start) == Seconds(r.start)
            && Seconds(First(build, r.cmdhash).end) == Seconds(r.end))
  {
    ConsistentExtend(build, r);
    if HasHash(build, r.cmdhash) {
      var f := First(build, r.cmdhash);
      var j :| 0 <= j < |build| && build[j] == f;
    }
    forall i | 0 <= i < |build| && build[i].cmdhash == r.cmdhash
      ensures HasHash(build, r.cmdhash)
      ensures First(build, r.cmdhash).start == build[i].start && First(build, r.cmdhash).end == build[i].end
    {
      FirstStandsForAll(build, i);
    }
  }

  /** As `Holds`, but the name of the last record is still to be appended to its target. */
  ghost predicate Pending(build: seq<Rec>, order: seq<string>, dict: map<string, Target>)
    requires build != []
    reads dict.Values
  {
    var last := build[|build| - 1];
    && order == Hashes(build)
    && (forall h :: h in dict <==> HasHash(build, h))
    && (forall h :: h in dict ==> IsPendingGroup(build, h, dict[h], if h == last.cmdhash then [last.name] else []))
    && (forall g, h :: g in dict && h in dict && g != h ==> dict[g] != dict[h])
  }

  ghost predicate IsPendingGroup(build: seq<Rec>, h: string, target: Target, missing: seq<string>)
    requires HasHash(build, h)
    reads target
  {
    && target.start == Seconds(First(build, h).start) && target.end == Seconds(First(build, h).end)
    && target.targets + missing == Names(build, h)
  }

  /** What one more record does to the groups. */
  lemma After(build: seq<Rec>, r: Rec)
    ensures forall h :: HasHash(build + [r], h) <==> HasHash(build, h) || r.cmdhash == h
    ensures forall h :: HasHash(build, h) ==> First(build + [r], h) == First(build, h)
    ensures forall h :: HasHash(build, h) ==>
      Names(build + [r], h) == if r.cmdhash == h then Names(build, h) + [r.name] else Names(build, h)
    ensures Hashes(build + [r]) == if HasHash(build, r.cmdhash) then Hashes(build) else Hashes(build) + [r.cmdhash]
  {
    var after := build + [r];
    assert after[..|build|] == build;
    HashesFacts(build);
    forall h
      ensures HasHash(after, h) <==> HasHash(build, h) || r.cmdhash == h
    {
      HasHashFront(after, h);
    }
    forall h | HasHash(build, h)
      ensures First(after, h) == First(build, h)
      ensures Names(after, h) == if r.cmdhash == h then Names(build, h) + [r.name] else Names(build, h)
    {
      GroupGrows(build, r, h);
    }
  }

  lemma PendingExisting(build: seq<Rec>, r: Rec, order: seq<string>, dict: map<string, Target>)
    requires Holds(build, order, dict) && r.cmdhash in dict
    ensures Pending(build + [r], order, dict)
  {
    var after := build + [r];
    After(build, r);
    forall h | h in dict
      ensures IsPendingGroup(after, h, dict[h], if h == r.cmdhash then [r.name] else [])
    {
      assert IsGroup(build, h, dict[h]);
    }
  }

  lemma PendingNew(build: seq<Rec>, r: Rec, order: seq<string>, dict: map<string, Target>, target: Target)
    requires Holds(build, order, dict) && r.cmdhash !in dict && target !in dict.Values
    requires target.start == Seconds(r.start) && target.end == Seconds(r.end) && target.targets == []
    ensures Pending(build + [r], order + [r.cmdhash], dict[r.cmdhash := target])
  {
    var after, dict' := build + [r], dict[r.cmdhash := target];
    After(build, r);
    GroupStarts(build, r);
    forall h | h in dict'
      ensures IsPendingGroup(after, h, dict'[h], if h == r.cmdhash then [r.name] else [])
    {
      assert h != r.cmdhash ==> IsGroup(build, h, dict[h]);
    }
    forall h | h in dict
      ensures dict[h] != target
    {
      assert dict[h] in dict.Values;
    }
  }

  /** The target of the record's command, created if the command is new. */
  method TargetFor(r: Rec, ghost build: seq<Rec>, order: seq<string>, dict: map<string, Target>)
    returns (order': seq<string>, dict': map<string, Target>)
    requires Holds(build, order, dict)
    ensures Pending(build + [r], order', dict') && r.cmdhash in dict'
    ensures forall h :: h in dict' ==> (h in dict && dict'[h] == dict[h]) || fresh(dict'[h])
  {
    if r.cmdhash in dict {
      PendingExisting(build, r, order, dict);
      order', dict' := order, dict;
    } else {
      var target := new Target(Seconds(r.start), Seconds(r.end));
      PendingNew(build, r, order, dict, target);
      order', dict' := order + [r.cmdhash], dict[r.cmdhash := target];
    }
  }

  /** The two tests that drop the build so far. */
  method ResetIfNeeded(r: Rec, showAll: bool, lastEndSeen: real,
                       ghost build: seq<Rec>, order: seq<string>, dict: map<string, Target>)
    returns (order': seq<string>, dict': map<string, Target>, ghost build': seq<Rec>)
    requires Holds(build, order, dict) && (!showAll ==> Consistent(build))
    requires build != [] ==> lastEndSeen == Seconds(build[|build| - 1].end)
    ensures build' == [] || build' == build
    ensures build' + [r] == if showAll || Consistent(build + [r]) then build + [r] else [r]
    ensures Holds(build', order', dict')
    ensures forall h :: h in dict' ==> h in dict && dict'[h] == dict[h]
  {
    order', dict', build' := order, dict, build;
    if !showAll && build != [] {
      ResetTest(build, r);
    }
    if !showAll && Seconds(r.end) < lastEndSeen {
      order', dict', build' := [], map[], [];
    }
    if r.cmdhash in dict' {
      var target := dict'[r.cmdhash];
      if !showAll && (target.start != Seconds(r.start) || target.end != Seconds(r.end)) {
        order', dict', build' := [], map[], [];
      }
    }
  }

  /** `target.targets.append(name)`. */
  method AppendName(ghost build: seq<Rec>, r: Rec, ghost order: seq<string>, dict: map<string, Target>)
    requires build != [] && build[|build| - 1] == r && Pending(build, order, dict) && r.cmdhash in dict
    modifies dict[r.cmdhash]
    ensures Holds(build, order, dict)
  {
    var target := dict[r.cmdhash];
    target.targets := target.targets + [r.name];
    forall h | h in dict
      ensures IsGroup(build, h, dict[h])
    {
      assert h != r.cmdhash ==> dict[h].targets + [] == dict[h].targets;
    }
  }

  /** One well-formed record: reset if it does not fit, find or create its target, append its name. */
  method AddToBuild(r: Rec, showAll: bool, lastEndSeen: real,
                    ghost build: seq<Rec>, order: seq<string>, dict: map<string, Target>)
    returns (order': seq<string>, dict': map<string, Target>, ghost build': seq<Rec>)
    requires Holds(build, order, dict) && (!showAll ==> Consistent(build))
    requires build != [] ==> lastEndSeen == Seconds(build[|build| - 1].end)
    modifies dict.Values
    ensures build' == if showAll || Consistent(build + [r]) then build + [r] else [r]
    ensures Holds(build', order', dict')
    ensures forall h :: h in dict' ==> (h in dict && dict'[h] == dict[h]) || fresh(dict'[h])
  {
    order', dict', build' := ResetIfNeeded(r, showAll, lastEndSeen, build, order, dict);
    order', dict' := TargetFor(r, build', order', dict');
    build' := build' + [r];
    assert dict'[r.cmdhash] in dict.Values || fresh(dict'[r.cmdhash]);
    AppendName(build', r, order', dict');
  }

  /** The same, with the build given by the records read so far. */
  method AddRecord(r: Rec, showAll: bool, lastEndSeen: real,
                   ghost rs: seq<Rec>, order: seq<string>, dict: map<string, Target>)
    returns (order': seq<string>, dict': map<string, Target>)
    requires Holds(LastBuild(rs, showAll), order, dict)
    requires rs != [] ==> lastEndSeen == Seconds(rs[|rs| - 1].end)
    modifies dict.Values
    ensures Holds(LastBuild(rs + [r], showAll), order', dict')
    ensures forall h :: h in dict' ==> (h in dict && dict'[h] == dict[h]) || fresh(dict'[h])
  {
    ghost var build;
    order', dict', build := AddToBuild(r, showAll, lastEndSeen, LastBuild(rs, showAll), order, dict);
    BuildStep(rs, r, showAll);
    assert build == LastBuild(rs + [r], showAll);
  }

  lemma RecordsNext(lines: seq<Line>, n: nat)
    requires n < |lines|
    ensures Records(lines[..n + 1]) == if lines[n].Record? then Records(lines[..n]) + [lines[n].rec] else Records(lines[..n])
  {
    assert lines[..n + 1][..n] == lines[..n];
  }

  /** The loop over the lines; `ok` is false when a time does not parse. */
  method ReadRecords(lines: seq<Line>, showAll: bool)
    returns (ok: bool, order: seq<string>, dict: map<string, Target>)
    ensures ok <==> forall i :: 0 <= i < |lines| ==> lines[i] != BadNumber
    ensures ok ==> Holds(LastBuild(Records(lines), showAll), order, dict)
    ensures ok ==> forall h :: h in dict ==> fresh(dict[h])
  {
    ok, order, dict := true, [], map[];
    var lastEndSeen := 0.0;
    ghost var rs: seq<Rec> := [];
    for n := 0 to |lines|
      invariant forall i :: 0 <= i < n ==> lines[i] != BadNumber
      invariant rs == Records(lines[..n])
      invariant rs != [] ==> lastEndSeen == Seconds(rs[|rs| - 1].end)
      invariant Holds(LastBuild(rs, showAll), order, dict)
      invariant forall h :: h in dict ==> fresh(dict[h])
    {
      RecordsNext(lines, n);
      match lines[n]
      case Corrupt => continue;
      case BadNumber => return false, [], map[];
      case Record(rec) =>
        order, dict := AddRecord(rec, showAll, lastEndSeen, rs, order, dict);
        lastEndSeen := Seconds(rec.end);
        rs := rs + [rec];
    }
    assert lines[..|lines|] == lines;
  }

  /** `ReadTargets`: with `showAll` every record, otherwise the records of the last build, one target per
      command in order of first appearance, holding the names of the command in log order. */
  method ReadTargets(header: string, lines: seq<Line>, showAll: bool) returns (r: ReadResult)
    ensures r.HeaderError? <==> header != "# ninja log v5\n"
    ensures r.NumberError? <==> header == "# ninja log v5\n" && BadNumber in lines
    ensures r.Targets? ==> GroupedBy(LastBuild(Records(lines), showAll), r.targets)
    ensures r.Targets? ==> forall i :: 0 <= i < |r.targets| ==> fresh(r.targets[i])
  {
    if header != HEADER {
      return HeaderError;
    }
    var ok, order, dict := ReadRecords(lines, showAll);
    if !ok {
      return NumberError;
    }
    r := Targets(Values(LastBuild(Records(lines), showAll), order, dict));
  }

  /** `list(targets_dict.values())`. */
  function Values(ghost build: seq<Rec>, order: seq<string>, dict: map<string, Target>): (targets: seq<Target>)
    requires Holds(build, order, dict)
    reads dict.Values
    ensures GroupedBy(build, targets)
    ensures forall i :: 0 <= i < |targets| ==> targets[i] in dict.Values
  {
    HashesFacts(build);
    seq(|order|, i requires 0 <= i < |order| && order[i] in dict => dict[order[i]])
  }

  /** One target per command of `build`, all different objects, in order of first appearance. */
  ghost predicate GroupedBy(build: seq<Rec>, targets: seq<Target>)
    reads targets
  {
    && |targets| == |Hashes(build)|
    && (forall i :: 0 <= i < |targets| ==>
          HasHash(build, Hashes(build)[i]) && IsGroup(build, Hashes(build)[i], targets[i]))
    && (forall i, j :: 0 <= i < j < |targets| ==> targets[i] != targets[j])
  }

  /** Record `k` is the first of its command. */
  predicate FirstOfCommand(build: seq<Rec>, k: int) {
    0 <= k < |build| && forall j :: 0 <= j < k ==> build[j].cmdhash != build[k].cmdhash
  }

  lemma {:induction false} FirstPosition(build: seq<Rec>, h: string) returns (k: int)
    requires HasHash(build, h)
    ensures FirstOfCommand(build, k) && build[k] == First(build, h) && build[k].cmdhash == h
  {
    var n := |build| - 1;
    HasHashFront(build, h);
    if HasHash(build[..n], h) {
      k := FirstPosition(build[..n], h);
    } else {
      k := n;
      assert forall j :: 0 <= j < n ==> build[..n][j] == build[j];
    }
  }

  /** Each target has the times of the first record of some command, in seconds, and the names of that command. */
  lemma TargetTimes(build: seq<Rec>, targets: seq<Target>, i: nat) returns (k: int)
    requires GroupedBy(build, targets) && i < |targets|
    ensures FirstOfCommand(build, k)
    ensures targets[i].start * 1000.0 == build[k].start as real && targets[i].end * 1000.0 == build[k].end as real
    ensures targets[i].targets == Names(build, build[k].cmdhash)
  {
    assert IsGroup(build, Hashes(build)[i], targets[i]);
    k := FirstPosition(build, Hashes(build)[i]);
  }
}
