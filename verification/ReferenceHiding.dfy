/**
 * Hiding the reference project from an agent. Around an agent run the reference directory is moved out of the
 * workspace and moved back afterwards, whether or not the run failed.
 */
module ReferenceHiding {
  import opened Wrappers
  import opened FileTree
  import opened Replacing

  const MARKER := "[REDACTED_GEMINI_API_KEY]"
  const SIZE_LIMIT := 20_000_000

  function Workspace(runDir: Path): Path {
    runDir + ["workspace"]
  }

  function Home(runDir: Path): Path {
    Workspace(runDir) + [".gemini_home"]
  }

  function Reference(runDir: Path): Path {
    runDir + ["workspace", "reference_project"]
  }

  function Hidden(runDir: Path, tag: string): Path {
    runDir + [".hidden_" + tag + "_reference_project"]
  }

  /** Paths at or below some hidden directory. */
  predicate IsHidden(p: Path, runDir: Path) {
    runDir <= p && |runDir| < |p| && ".hidden_" <= p[|runDir|]
  }

  lemma HiddenApart(runDir: Path, tag: string)
    ensures Apart(Reference(runDir), Hidden(runDir, tag)) && Apart(Hidden(runDir, tag), Reference(runDir))
  {
    assert Reference(runDir)[|runDir|][0] == 'w' && Hidden(runDir, tag)[|runDir|][0] == '.';
  }

  /** Each stage hides the reference at a place of its own. */
  lemma HidingPlaces(runDir: Path, i: nat, j: nat)
    requires 1 <= i < j <= 5
    ensures Apart(Hidden(runDir, StageTag(i)), Hidden(runDir, StageTag(j)))
  {
    assert |StageTag(i)| == |StageTag(j)| == 6 && StageTag(i)[5] != StageTag(j)[5];
    assert Hidden(runDir, StageTag(i))[|runDir|][8 + 5] == StageTag(i)[5];
    assert Hidden(runDir, StageTag(j))[|runDir|][8 + 5] == StageTag(j)[5];
  }

  /** A regular file: `rmtree` refuses it. */
  predicate FileAt(fs: Fs, p: Path) {
    p in fs && fs[p].File?
  }

  // ----- redaction

  /** Without a key nothing is replaced. */
  function RedactNode(node: Node, key: string): Node {
    if key == "" || node.Dir? || |node.text| > SIZE_LIMIT then node else File(Replace(node.text, key, MARKER))
  }

  /** A node is left alone exactly when it is no file, too large, or free of the key; or there is no key; or it is the
      marker. */
  lemma RedactChangesIff(node: Node, key: string)
    ensures RedactNode(node, key) != node <==>
      key != "" && key != MARKER && node.File? && |node.text| <= 20_000_000 && Contains(node.text, key)
  {
    if node.File? && key != "" {
      ReplaceChangesIff(node.text, key, MARKER);
    }
  }

  /** `redact_sensitive_state`. */
  function Redact(fs: Fs, runDir: Path, key: string): Fs {
    map p | p in fs :: if runDir <= p then RedactNode(fs[p], key) else fs[p]
  }

  /** The disk after `cleanup_sensitive_state`; a regular file at `.gemini_home` makes it fail. */
  function CleanedUp(fs: Fs, runDir: Path, key: string): Fs {
    var home := Home(runDir);
    if FileAt(fs, home) then fs else Redact(if home in fs then Remove(fs, home) else fs, runDir, key)
  }

  /**
   * What a clean-up does to each path: `.gemini_home` goes, the small files of the run are redacted, and everything
   * else stays as it is.
   */
  lemma CleanedUpAt(fs: Fs, runDir: Path, key: string, p: Path)
    requires !FileAt(fs, Home(runDir))
    ensures p in CleanedUp(fs, runDir, key) <==> p in fs && (Home(runDir) in fs ==> !(Home(runDir) <= p))
    ensures p in CleanedUp(fs, runDir, key) ==>
      (CleanedUp(fs, runDir, key)[p] ==
       if key != "" && runDir <= p && fs[p].File? && |fs[p].text| <= 20_000_000
       then File(Replace(fs[p].text, key, MARKER)) else fs[p])
  {
  }

  /** No file of the run that was small enough holds the key after a clean-up, if key and marker do not clash. */
  lemma KeyIsGone(fs: Fs, runDir: Path, key: string, p: Path)
    requires key != "" && !FileAt(fs, Home(runDir)) && !Clash(key, MARKER)
    requires runDir <= p && FileAt(fs, p) && |fs[p].text| <= SIZE_LIMIT
    ensures FileAt(CleanedUp(fs, runDir, key), p) ==> !Contains(CleanedUp(fs, runDir, key)[p].text, key)
  {
    ReplaceRemovesIff(key, MARKER);
    assert Removes(key, MARKER, fs[p].text);
    CleanedUpAt(fs, runDir, key, p);
  }

  /** A key without brackets that is no part of the marker does not clash with it. */
  lemma OrdinaryKey(key: string)
    requires key != "" && '[' !in key && ']' !in key && !Contains(MARKER, key)
    ensures !Clash(key, MARKER)
  {
    assert MARKER[0] == '[' && MARKER[|MARKER| - 1] == ']';
    forall i | 0 <= i < |MARKER| ensures !Comparable(key, MARKER[i..]) {
      assert MARKER[i..][|MARKER| - 1 - i] == ']';
    }
    forall m | 1 <= m < |key| ensures !Comparable(key[m..], MARKER) {
      assert key[m..][0] in key;
    }
  }

  predicate MaybeRedacted(fs: Fs, p: Path, other: Fs, q: Path, key: string) {
    (p in fs <==> q in other) && (p in fs ==> fs[p] == other[q] || fs[p] == RedactNode(other[q], key))
  }

  /** The same tree, except that files may have been redacted. */
  ghost predicate UpToRedaction(fs: Fs, a: Path, other: Fs, b: Path, key: string) {
    forall r: Path :: MaybeRedacted(fs, a + r, other, b + r, key)
  }

  ghost predicate KeyFree(fs: Fs, root: Path, key: string) {
    forall r: Path :: root + r in fs ==> RedactNode(fs[root + r], key) == fs[root + r]
  }

  lemma SameThenRedacted(f1: Fs, a1: Path, f2: Fs, a2: Path, f3: Fs, a3: Path, f4: Fs, a4: Path, key: string)
    requires SameTree(f1, a1, f2, a2) && UpToRedaction(f2, a2, f3, a3, key) && SameTree(f3, a3, f4, a4)
    ensures UpToRedaction(f1, a1, f4, a4, key)
  {
    forall r: Path ensures MaybeRedacted(f1, a1 + r, f4, a4 + r, key) {
      assert SameNode(f1, a1 + r, f2, a2 + r) && MaybeRedacted(f2, a2 + r, f3, a3 + r, key);
      assert SameNode(f3, a3 + r, f4, a4 + r);
    }
  }

  // ----- agents

  datatype AgentResult = AgentResult(fs: Fs, failed: bool)

  /** Everything done between hiding and cleaning up: any change to the disk, any failure. */
  type Agent = Fs -> AgentResult

  ghost predicate HiddenKept(before: Fs, after: Fs, runDir: Path) {
    forall p: Path :: IsHidden(p, runDir) ==> SameNode(after, p, before, p)
  }

  /** The agent sees the workspace only, so it cannot touch what is hidden. */
  ghost predicate Confined(agent: Agent, runDir: Path) {
    forall fs: Fs :: HiddenKept(fs, agent(fs).fs, runDir)
  }

  function LeaveFile(disk: Fs, runDir: Path): AgentResult {
    AgentResult(disk[Reference(runDir) := File("")], false)
  }

  /** A confined agent can leave a regular file where the reference belongs, which no restore survives. */
  lemma BlockingAgent(fs: Fs, runDir: Path)
    ensures Confined((disk: Fs) => LeaveFile(disk, runDir), runDir)
    ensures FileAt(LeaveFile(fs, runDir).fs, Reference(runDir))
  {
    assert Reference(runDir)[|runDir|][0] == 'w';
    assert !IsHidden(Reference(runDir), runDir);
  }

  // ----- moving out and back

  /** The disk after `move_workspace_path`, when there is something to move. */
  function MovedOut(fs: Fs, runDir: Path, tag: string): Fs {
    var dst := Hidden(runDir, tag);
    Rename(if dst in fs then Remove(fs, dst) else fs, Reference(runDir), dst)
  }

  /** The disk after `restore_workspace_path`, when nothing stands in the way. */
  function MovedBack(fs: Fs, runDir: Path, tag: string): Fs {
    var src := Reference(runDir);
    Rename(if src in fs then Remove(fs, src) else fs, Hidden(runDir, tag), src)
  }

  lemma MovedOutKeeps(fs: Fs, runDir: Path, tag: string)
    ensures SameTree(MovedOut(fs, runDir, tag), Hidden(runDir, tag), fs, Reference(runDir))
    ensures NoTree(MovedOut(fs, runDir, tag), Reference(runDir))
  {
    var src, dst := Reference(runDir), Hidden(runDir, tag);
    var cleared := if dst in fs then Remove(fs, dst) else fs;
    HiddenApart(runDir, tag);
    RenameMoves(cleared, src, dst);
    assert SameTree(cleared, src, fs, src);
  }

  lemma MovedBackKeeps(fs: Fs, runDir: Path, tag: string)
    ensures SameTree(MovedBack(fs, runDir, tag), Reference(runDir), fs, Hidden(runDir, tag))
    ensures NoTree(MovedBack(fs, runDir, tag), Hidden(runDir, tag))
  {
    var src, dst := Reference(runDir), Hidden(runDir, tag);
    var cleared := if src in fs then Remove(fs, src) else fs;
    HiddenApart(runDir, tag);
    RenameMoves(cleared, dst, src);
    assert SameTree(cleared, dst, fs, dst);
  }

  /** Outside the reference and its hiding place the two disks are the same. */
  ghost predicate SameElsewhere(fs: Fs, other: Fs, runDir: Path, tag: string) {
    forall p: Path :: !(Reference(runDir) <= p) && !(Hidden(runDir, tag) <= p) ==> SameNode(fs, p, other, p)
  }

  lemma MovedElsewhere(fs: Fs, runDir: Path, tag: string)
    ensures SameElsewhere(MovedOut(fs, runDir, tag), fs, runDir, tag)
    ensures SameElsewhere(MovedBack(fs, runDir, tag), fs, runDir, tag)
  {
    var ref, hidden := Reference(runDir), Hidden(runDir, tag);
    forall p: Path | !(ref <= p) && !(hidden <= p)
      ensures SameNode(MovedOut(fs, runDir, tag), p, fs, p) && SameNode(MovedBack(fs, runDir, tag), p, fs, p)
    {
      RenameElsewhere(if hidden in fs then Remove(fs, hidden) else fs, ref, hidden, p);
      RenameElsewhere(if ref in fs then Remove(fs, ref) else fs, hidden, ref, p);
    }
  }

  /**
   * What a stage that hid the reference leaves: the reference back in place, unless the agent had put a regular
   * file there; then it stays hidden, with its contents.
   */
  ghost predicate StageKept(before: Fs, after: Fs, left: Fs, runDir: Path, tag: string, key: string) {
    if FileAt(left, Reference(runDir))
    then UpToRedaction(after, Hidden(runDir, tag), before, Reference(runDir), key)
    else UpToRedaction(after, Reference(runDir), before, Reference(runDir), key)
  }

  datatype Outcome = Done | Failed | HideFailed | RestoreFailed

  class Disk {
    var fs: Fs
    const runDir: Path
    const key: string

    constructor (fs: Fs, runDir: Path, key: string)
      ensures this.fs == fs && this.runDir == runDir && this.key == key
    {
      this.fs, this.runDir, this.key := fs, runDir, key;
    }

    /** `shutil.rmtree`. */
    method RmTree(p: Path) returns (ok: bool)
      requires p in fs
      modifies this
      ensures ok <==> old(fs)[p].Dir?
      ensures fs == if ok then Remove(old(fs), p) else old(fs)
    {
      ok := fs[p].Dir?;
      if ok {
        fs := Remove(fs, p);
      }
    }

    /** `move_workspace_path` of the reference project: the result tells whether there is something to restore. */
    method MoveWorkspacePath(tag: string) returns (ok: bool, moved: bool)
      modifies this
      ensures moved ==> ok
      ensures ok <==> Reference(runDir) !in old(fs) || !FileAt(old(fs), Hidden(runDir, tag))
      ensures ok ==> (moved <==> Reference(runDir) in old(fs))
      ensures fs == if moved then MovedOut(old(fs), runDir, tag) else old(fs)
      ensures SameElsewhere(fs, old(fs), runDir, tag)
    {
      MovedElsewhere(fs, runDir, tag);
      var src, dst := Reference(runDir), Hidden(runDir, tag);
      if src !in fs {
        return true, false;
      }
      if dst in fs {
        ok := RmTree(dst);
        if !ok {
          return false, false;
        }
      }
      fs := Rename(fs, src, dst);
      return true, true;
    }

    /** `restore_workspace_path`. */
    method RestoreWorkspacePath(moved: bool, tag: string) returns (ok: bool)
      modifies this
      ensures ok <==> !moved || !FileAt(old(fs), Reference(runDir))
      ensures fs == if moved && ok then MovedBack(old(fs), runDir, tag) else old(fs)
      ensures SameElsewhere(fs, old(fs), runDir, tag)
    {
      MovedElsewhere(fs, runDir, tag);
      if !moved {
        return true;
      }
      var src, dst := Reference(runDir), Hidden(runDir, tag);
      if src in fs {
        ok := RmTree(src);
        if !ok {
          return false;
        }
      }
      fs := Rename(fs, dst, src);
      return true;
    }

    /** `cleanup_sensitive_state`. */
    method Cleanup() returns (ok: bool)
      modifies this
      ensures ok <==> !FileAt(old(fs), Home(runDir))
      ensures fs == CleanedUp(old(fs), runDir, key)
    {
      var home := Home(runDir);
      if home in fs {
        ok := RmTree(home);
        if !ok {
          return false;
        }
      }
      fs := Redact(fs, runDir, key);
      return true;
    }

    /** `run_gemini`: the agent's work, then the clean-up, also after a failure. */
    method RunGemini(agent: Agent) returns (ok: bool)
      modifies this
      ensures ok <==> !agent(old(fs)).failed && !FileAt(agent(old(fs)).fs, Home(runDir))
      ensures fs == CleanedUp(agent(old(fs)).fs, runDir, key)
    {
      var result := agent(fs);
      fs := result.fs;
      var cleaned := Cleanup();
      ok := !result.failed && cleaned;
    }

    /** One stage of `run_staged_gemini`; `left` is the disk as the run left it, before the restore. */
    method RunStage(stage: nat, tag: string, agent: Agent) returns (outcome: Outcome, ghost left: Fs)
      requires Confined(agent, runDir)
      modifies this
      ensures Staged(old(fs), stage, tag, agent, outcome, left, fs, runDir, key)
      ensures stage != 2 && Reference(runDir) in old(fs) && !outcome.HideFailed? ==>
        StageKept(old(fs), fs, left, runDir, tag, key)
    {
      MovedElsewhere(fs, runDir, tag);
      left := fs;
      var moved := false;
      if stage != 2 {
        var ok;
        ok, moved := MoveWorkspacePath(tag);
        if !ok {
          return HideFailed, fs;
        }
      }
      ghost var hidden := fs;
      var ok := RunGemini(agent);
      left := fs;
      var restored := RestoreWorkspacePath(moved, tag);
      if moved {
        RunKeepsHidden(hidden, agent, runDir, tag, key);
        HiddenStage(old(fs), hidden, left, fs, runDir, tag, key);
      }
      outcome := if !restored then RestoreFailed else if ok then Done else Failed;
    }

    /**
     * `run_staged_gemini`: five stages, the second with the reference in sight. `trace` holds the disk before the
     * first stage and after every stage that ran, `lefts` the disks their runs left.
     */
    method RunStaged(agents: seq<Agent>) returns (outcome: Outcome, ghost trace: seq<Fs>, ghost lefts: seq<Fs>)
      requires |agents| == 5 && forall i :: 0 <= i < 5 ==> Confined(agents[i], runDir)
      modifies this
      ensures 1 <= |lefts| <= 5 && |trace| == |lefts| + 1 && trace[0] == old(fs) && trace[|lefts|] == fs
      ensures outcome.Done? ==> |lefts| == 5
      ensures forall i :: 0 <= i < |lefts| ==> Staged(trace[i], i + 1, StageTag(i + 1), agents[i],
        if i < |lefts| - 1 then Done else outcome, lefts[i], trace[i + 1], runDir, key)
      ensures forall i :: 0 <= i < |lefts| && i != 1 && (i < |lefts| - 1 || outcome.Done? || outcome.Failed?) ==>
        ReferenceKept(trace[i], trace[i + 1], runDir, key)
      ensures outcome.Done? && Reference(runDir) in trace[2] && KeyFree(trace[2], Reference(runDir), key) ==>
        SameTree(fs, Reference(runDir), trace[2], Reference(runDir))
    {
      trace, lefts := [fs], [];
      for i := 0 to 5
        invariant |lefts| == i && |trace| == i + 1 && trace[0] == old(fs) && trace[i] == fs
        invariant forall j :: 0 <= j < i ==>
          Staged(trace[j], j + 1, StageTag(j + 1), agents[j], Done, lefts[j], trace[j + 1], runDir, key)
        invariant forall j :: 0 <= j < i && j != 1 ==> ReferenceKept(trace[j], trace[j + 1], runDir, key)
      {
        ghost var before := fs;
        ghost var left;
        outcome, left := RunStage(i + 1, StageTag(i + 1), agents[i]);
        trace, lefts := trace + [fs], lefts + [left];
        assert (outcome.Done? || outcome.Failed?) && i != 1 ==> ReferenceKept(before, fs, runDir, key);
        if outcome != Done {
          return;
        }
      }
      LaterStagesKeep(trace[2], trace[3], trace[4], trace[5], runDir, key);
      outcome := Done;
    }

    /**
     * `run_two_stage_gemini`: the reference is hidden for the first stage only. `left` is the disk the first stage
     * left; if the second stage is reached, it starts from `seen` and leaves `after`.
     */
    method RunTwoStage(starts: bool, first: Agent, second: Agent)
        returns (outcome: Outcome, ghost left: Fs, ghost seen: Option<Fs>, ghost after: Fs)
      requires Confined(first, runDir)
      modifies this
      ensures TwoStaged(old(fs), starts, first, second, outcome, left, seen, after, fs, runDir, key)
      ensures Reference(runDir) in old(fs) && outcome.RestoreFailed? ==>
        SameTree(fs, Hidden(runDir, "two_stage1"), old(fs), Reference(runDir))
      ensures Reference(runDir) in old(fs) && seen.Some? ==>
        SameTree(seen.value, Reference(runDir), old(fs), Reference(runDir))
      ensures seen.Some? ==> UpToRedaction(fs, Reference(runDir), after, Reference(runDir), key)
      ensures SameElsewhere(StageStart(old(fs), 1, "two_stage1", runDir), old(fs), runDir, "two_stage1")
      ensures seen.Some? ==> SameElsewhere(seen.value, left, runDir, "two_stage1")
      ensures Reference(runDir) in old(fs) && seen.None? && outcome.Failed? ==>
        UpToRedaction(fs, Reference(runDir), old(fs), Reference(runDir), key)
    {
      left, seen, after := fs, None, fs;
      var tag := "two_stage1";
      MovedElsewhere(fs, runDir, tag);
      var hidden, moved := MoveWorkspacePath(tag);
      ghost var out := fs;
      var raised := !hidden;
      if !raised {
        if starts {
          var result := first(fs);
          fs := result.fs;
          raised := result.failed;
        } else {
          raised := true;
        }
        left := fs;
        if moved {
          FirstStage(old(fs), out, left, runDir, tag);
        }
        if !raised {
          var restored := RestoreWorkspacePath(moved, tag);
          raised := !restored;
          if restored {
            moved := false;
            seen := Some(fs);
            var result := second(fs);
            fs := result.fs;
            after := fs;
            raised := result.failed;
          }
        }
      }
      var restored := RestoreWorkspacePath(moved, tag);
      if !restored {
        return RestoreFailed, left, seen, after;
      }
      ghost var back := fs;
      var cleaned := Cleanup();
      CleanupKeepsReference(back, runDir, key);
      outcome := if !hidden then HideFailed else if raised || !cleaned then Failed else Done;
      if seen.None? && moved {
        SameThenRedacted(fs, Reference(runDir), fs, Reference(runDir), back, Reference(runDir),
                         old(fs), Reference(runDir), key);
      }
    }
  }

  /** The disk a stage's run starts from. */
  function StageStart(before: Fs, stage: nat, tag: string, runDir: Path): Fs {
    if stage != 2 && Reference(runDir) in before then MovedOut(before, runDir, tag) else before
  }

  /**
   * What one stage does to the disk, and how it ends. Hiding and restoring touch nothing else: the run sees the rest
   * of the disk as it was, and what it leaves there stays.
   */
  ghost predicate Staged(before: Fs, stage: nat, tag: string, agent: Agent, outcome: Outcome, left: Fs, after: Fs,
                         runDir: Path, key: string)
  {
    && StagedExactly(before, stage, tag, agent, outcome, left, after, runDir, key)
    && SameElsewhere(StageStart(before, stage, tag, runDir), before, runDir, tag)
    && SameElsewhere(after, left, runDir, tag)
  }

  predicate StagedExactly(before: Fs, stage: nat, tag: string, agent: Agent, outcome: Outcome, left: Fs, after: Fs,
                          runDir: Path, key: string)
  {
    var moved := stage != 2 && Reference(runDir) in before;
    if moved && FileAt(before, Hidden(runDir, tag)) then outcome == HideFailed && after == before
    else
      var result := agent(StageStart(before, stage, tag, runDir));
      var failed := result.failed || FileAt(result.fs, Home(runDir));
      var blocked := moved && FileAt(left, Reference(runDir));
      && left == CleanedUp(result.fs, runDir, key)
      && after == (if moved && !blocked then MovedBack(left, runDir, tag) else left)
      && outcome == if blocked then RestoreFailed else if failed then Failed else Done
  }

  /**
   * What the two-stage run does to the disk: the reference is moved out once and back once, after the first stage;
   * a second stage that is reached ends with the clean-up of what it left, and nothing else.
   */
  ghost predicate TwoStaged(before: Fs, starts: bool, first: Agent, second: Agent, outcome: Outcome, left: Fs,
                            seen: Option<Fs>, after: Fs, final: Fs, runDir: Path, key: string)
  {
    var tag := "two_stage1";
    var moved := Reference(runDir) in before;
    if moved && FileAt(before, Hidden(runDir, tag)) then
      outcome == HideFailed && seen == None && final == CleanedUp(before, runDir, key)
    else
      var out := if moved then MovedOut(before, runDir, tag) else before;
      var back := if moved then MovedBack(left, runDir, tag) else left;
      var blocked := moved && FileAt(left, Reference(runDir));
      var reached := starts && !first(out).failed && !blocked;
      && left == (if starts then first(out).fs else out)
      && (blocked ==> outcome == RestoreFailed && seen == None && final == left)
      && (!blocked && !reached ==> outcome == Failed && seen == None && final == CleanedUp(back, runDir, key))
      && (reached ==> seen == Some(back) && after == second(back).fs && final == CleanedUp(after, runDir, key))
      && (reached ==> outcome == if second(back).failed || FileAt(after, Home(runDir)) then Failed else Done)
  }

  function StageTag(stage: nat): string {
    "stage" + if stage == 1 then "1" else if stage == 2 then "2" else if stage == 3 then "3" else if stage == 4 then "4"
              else "5"
  }

  /** A reference that was there is there again, its files at most redacted. */
  ghost predicate ReferenceKept(before: Fs, after: Fs, runDir: Path, key: string) {
    Reference(runDir) in before ==> UpToRedaction(after, Reference(runDir), before, Reference(runDir), key)
  }

  lemma ReferenceStays(before: Fs, after: Fs, runDir: Path, key: string)
    requires ReferenceKept(before, after, runDir, key)
    requires Reference(runDir) in before && KeyFree(before, Reference(runDir), key)
    ensures SameTree(after, Reference(runDir), before, Reference(runDir))
    ensures Reference(runDir) in after && KeyFree(after, Reference(runDir), key)
  {
    var ref := Reference(runDir);
    assert SameNode(after, ref + [], before, ref + []) && ref + [] == ref;
  }

  lemma LaterStagesKeep(f2: Fs, f3: Fs, f4: Fs, f5: Fs, runDir: Path, key: string)
    requires ReferenceKept(f2, f3, runDir, key) && ReferenceKept(f3, f4, runDir, key)
    requires ReferenceKept(f4, f5, runDir, key)
    ensures Reference(runDir) in f2 && KeyFree(f2, Reference(runDir), key) ==>
      SameTree(f5, Reference(runDir), f2, Reference(runDir))
  {
    var ref := Reference(runDir);
    if ref in f2 && KeyFree(f2, ref, key) {
      ReferenceStays(f2, f3, runDir, key);
      ReferenceStays(f3, f4, runDir, key);
      ReferenceStays(f4, f5, runDir, key);
    }
  }

  lemma FirstStage(before: Fs, out: Fs, left: Fs, runDir: Path, tag: string)
    requires out == MovedOut(before, runDir, tag) && SameTree(left, Hidden(runDir, tag), out, Hidden(runDir, tag))
    ensures SameTree(left, Hidden(runDir, tag), before, Reference(runDir))
    ensures SameTree(MovedBack(left, runDir, tag), Reference(runDir), before, Reference(runDir))
  {
    var src, dst := Reference(runDir), Hidden(runDir, tag);
    MovedOutKeeps(before, runDir, tag);
    MovedBackKeeps(left, runDir, tag);
  }

  lemma CleanupKeeps(fs: Fs, runDir: Path, key: string, p: Path)
    requires !(Home(runDir) <= p)
    ensures MaybeRedacted(CleanedUp(fs, runDir, key), p, fs, p, key)
  {
  }

  lemma CleanupKeepsReference(fs: Fs, runDir: Path, key: string)
    ensures UpToRedaction(CleanedUp(fs, runDir, key), Reference(runDir), fs, Reference(runDir), key)
  {
    var home, ref := Home(runDir), Reference(runDir);
    assert home[|runDir| + 1] == ".gemini_home" && ref[|runDir| + 1] == "reference_project";
    assert home[|runDir| + 1][0] == '.' && ref[|runDir| + 1][0] == 'r';
    assert Apart(home, ref);
    forall r: Path ensures MaybeRedacted(CleanedUp(fs, runDir, key), ref + r, fs, ref + r, key) {
      UnderApart(home, ref, r);
      CleanupKeeps(fs, runDir, key, ref + r);
    }
  }

  /** A confined run, clean-up included, keeps what is hidden up to redaction. */
  lemma RunKeepsHidden(fs: Fs, agent: Agent, runDir: Path, tag: string, key: string)
    requires Confined(agent, runDir)
    ensures UpToRedaction(CleanedUp(agent(fs).fs, runDir, key), Hidden(runDir, tag), fs, Hidden(runDir, tag), key)
  {
    var after, hidden := agent(fs).fs, Hidden(runDir, tag);
    HomeApart(runDir, tag);
    forall r: Path ensures MaybeRedacted(CleanedUp(after, runDir, key), hidden + r, fs, hidden + r, key) {
      UnderApart(Home(runDir), hidden, r);
      CleanupKeeps(after, runDir, key, hidden + r);
      assert SameNode(after, hidden + r, fs, hidden + r);
    }
  }

  lemma HomeApart(runDir: Path, tag: string)
    ensures Apart(Home(runDir), Hidden(runDir, tag))
  {
    assert (Home(runDir))[|runDir|][0] == 'w' && Hidden(runDir, tag)[|runDir|][0] == '.';
  }

  lemma HiddenStage(before: Fs, hidden: Fs, left: Fs, after: Fs, runDir: Path, tag: string, key: string)
    requires hidden == MovedOut(before, runDir, tag)
    requires UpToRedaction(left, Hidden(runDir, tag), hidden, Hidden(runDir, tag), key)
    requires after == if FileAt(left, Reference(runDir)) then left else MovedBack(left, runDir, tag)
    ensures StageKept(before, after, left, runDir, tag, key)
  {
    var src, dst := Reference(runDir), Hidden(runDir, tag);
    MovedOutKeeps(before, runDir, tag);
    MovedBackKeeps(left, runDir, tag);
    if FileAt(left, src) {
      SameThenRedacted(after, dst, left, dst, hidden, dst, before, src, key);
    } else {
      SameThenRedacted(after, src, left, dst, hidden, dst, before, src, key);
    }
  }
}
