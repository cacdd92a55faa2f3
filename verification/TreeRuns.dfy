/** Runs of directory operations from a file system with an empty root. */
module TreeRuns {
  import opened Files
  import opened Directory
  import opened Unlink
  import opened Tree
  import opened FileTree

  /** Files by number, and what the directories among them should list. */
  datatype State = State(files: map<nat, File>, dirs: map<nat, seq<Entry>>)

  datatype Op =
    | Add(parent: nat, entry: Entry, file: File)
    | Drop(parent: nat, index: nat, found: nat)
    | Change(inum: nat, data: Text)

  /** One operation, each atomic under its lock: a file is made and its entry appended to its parent;
      an inode is removed and its entry deleted where its text is first found; a file that is no
      directory is written. */
  ghost predicate Does(s: State, s': State, op: Op)
  {
    match op
    case Add(p, e, f) =>
      && p in s.files && e.inum !in s.files && (f.typ == T_DIR ==> f.data == [])
      && (p in s.dirs ==> SlashFree(e.name) && !NameIn(s.dirs[p], e.name))
      && s' == State(WithEntry(s.files, p, e, f), AddedTo(s.dirs, p, e, f.typ == T_DIR))
    case Drop(p, t, q) =>
      && At(s.dirs, p, t) && p in s.files && IsFirst(s.files[p].data, EntryText(s.dirs[p][t]), q)
      && s'.dirs == Dropped(s.dirs, p, t)
      && s'.files == (s.files - {s.dirs[p][t].inum})
                     [p := File(T_DIR, Deleted(s.files[p].data, q, |EntryText(s.dirs[p][t])|))]
    case Change(i, data) =>
      && i in s.files && s.files[i].typ != T_DIR
      && s' == State(s.files[i := File(s.files[i].typ, data)], s.dirs)
  }

  /** The operation is the deletion of an entry whose text occurs further ahead. */
  ghost predicate DropsHidden(s: State, op: Op)
  {
    op.Drop? && At(s.dirs, op.parent, op.index)
    && Hidden(Names(s.dirs[op.parent]), Nums(s.dirs[op.parent]), op.index)
  }

  ghost predicate Good(s: State)
  {
    DirInv(s.files, s.dirs)
  }

  /** These files can be read as a tree of directories, in some way. */
  ghost predicate IsTree(m: map<nat, File>)
  {
    exists dirs: map<nat, seq<Entry>> :: DirInv(m, dirs)
  }

  // ---- one step ---------------------------------------------------------------------------

  lemma AddKeepsGood(s: State, s': State, p: nat, e: Entry, f: File)
    requires Good(s) && Does(s, s', Add(p, e, f))
    ensures Good(s')
  {
    if p in s.dirs {
      EnterKeeps(s.files, s.dirs, p, e, f);
    } else {
      StrayKeeps(s.files, s.dirs, p, e, f);
    }
  }

  lemma DropKeepsGood(s: State, s': State, p: nat, t: nat, q: nat)
    requires Good(s) && Does(s, s', Drop(p, t, q)) && !DropsHidden(s, Drop(p, t, q))
    ensures Good(s')
  {
    var es := s.dirs[p];
    assert Valid(es) && s.files[p].data == Encode(es);
    UnlinkExactlyWhenNotHidden(es, t, q);
    DropKeeps(s.files, s.dirs, p, t);
  }

  lemma HiddenLeftIsNoTree(m: map<nat, File>, es: seq<Entry>, p: nat, t: nat, text: Text)
    requires Valid(es) && t < |es| && Hidden(Names(es), Nums(es), t) && LeftAs(es, t, text)
    requires p in m && m[p] == File(T_DIR, text) && es[t].inum !in m
    ensures !IsTree(m)
  {
    if dirs: map<nat, seq<Entry>> :| DirInv(m, dirs) {
      HiddenDropBreaks(m, es, p, t, text, dirs);
      assert false;
    }
  }

  lemma HiddenDropIsNoTree(s: State, s': State, p: nat, t: nat, q: nat)
    requires Good(s) && Does(s, s', Drop(p, t, q)) && DropsHidden(s, Drop(p, t, q))
    ensures !IsTree(s'.files)
  {
    assert s.files[p].data == Encode(s.dirs[p]) && s.dirs[p][t].inum != p;
    LeftIs(s.dirs[p], t, q, s'.files[p].data);
    HiddenLeftIsNoTree(s'.files, s.dirs[p], p, t, s'.files[p].data);
  }

  /** A step leaves the files a tree of directories exactly when it does not delete a hidden entry,
      and then the tree is the one it should be. */
  lemma StepKeepsTreeExactly(s: State, s': State, op: Op)
    requires Good(s) && Does(s, s', op)
    ensures Good(s') <==> !DropsHidden(s, op)
    ensures IsTree(s'.files) <==> !DropsHidden(s, op)
  {
    match op
    case Add(p, e, f) => AddKeepsGood(s, s', p, e, f);
    case Drop(p, t, q) =>
      if DropsHidden(s, op) {
        HiddenDropIsNoTree(s, s', p, t, q);
      } else {
        DropKeepsGood(s, s', p, t, q);
      }
    case Change(i, data) => ChangeShows(s.files, s.dirs, i, File(s.files[i].typ, data));
  }

  // ---- runs -------------------------------------------------------------------------------

  function Start(): State
  {
    State(map[ROOT := File(T_DIR, [])], map[ROOT := []])
  }

  lemma StartGood()
    ensures Good(Start())
  {
    EncodeNothing();
  }

  ghost predicate Step(ss: seq<State>, ops: seq<Op>, k: nat)
    requires k < |ops| < |ss|
  {
    Does(ss[k], ss[k + 1], ops[k])
  }

  ghost predicate IsRun(ss: seq<State>, ops: seq<Op>)
  {
    |ss| == |ops| + 1 && ss[0] == Start() && forall k: nat | k < |ops| :: Step(ss, ops, k)
  }

  /** None of the first n operations deletes a hidden entry. */
  ghost predicate NoneHidden(ss: seq<State>, ops: seq<Op>, n: nat)
    requires n <= |ops| < |ss|
  {
    forall k: nat | k < n :: !DropsHidden(ss[k], ops[k])
  }

  /** In every run that deletes no hidden entry, names stay unique in each directory, the inode
      numbers listed in live directories stay pairwise different, live and different from the
      root's, and the directories' texts say what was added and not dropped. */
  lemma {:induction false} RunsKeepTree(ss: seq<State>, ops: seq<Op>, n: nat)
    requires IsRun(ss, ops) && n <= |ops| && NoneHidden(ss, ops, n)
    ensures Good(ss[n])
  {
    if n == 0 {
      StartGood();
    } else {
      RunsKeepTree(ss, ops, n - 1);
      assert Step(ss, ops, n - 1);
      StepKeepsTreeExactly(ss[n - 1], ss[n], ops[n - 1]);
    }
  }

  lemma {:induction false} HiddenBreaksRun(ss: seq<State>, ops: seq<Op>, k: nat)
    requires IsRun(ss, ops) && k < |ops| && DropsHidden(ss[k], ops[k])
    ensures exists j: nat :: j < |ss| && !IsTree(ss[j].files)
  {
    if NoneHidden(ss, ops, k) {
      RunsKeepTree(ss, ops, k);
      assert Step(ss, ops, k);
      StepKeepsTreeExactly(ss[k], ss[k + 1], ops[k]);
    } else {
      var j: nat :| j < k && DropsHidden(ss[j], ops[j]);
      HiddenBreaksRun(ss, ops, j);
    }
  }

  /** A run goes through trees of directories only, exactly when it deletes no hidden entry. */
  lemma RunsKeepTreeExactly(ss: seq<State>, ops: seq<Op>)
    requires IsRun(ss, ops)
    ensures (forall j: nat | j < |ss| :: IsTree(ss[j].files)) <==> NoneHidden(ss, ops, |ops|)
  {
    if NoneHidden(ss, ops, |ops|) {
      forall j: nat | j < |ss| ensures IsTree(ss[j].files) {
        RunsKeepTree(ss, ops, j);
      }
    } else {
      var k: nat :| k < |ops| && DropsHidden(ss[k], ops[k]);
      HiddenBreaksRun(ss, ops, k);
    }
  }

  // ---- names that are words ---------------------------------------------------------------

  /** Every name has a character that is not a digit. */
  ghost predicate WordNames(dirs: map<nat, seq<Entry>>)
  {
    forall p, k: nat | At(dirs, p, k) :: !AllDigits(dirs[p][k].name)
  }

  lemma AddedWords(dirs: map<nat, seq<Entry>>, p: nat, e: Entry, isDir: bool)
    requires WordNames(dirs) && !AllDigits(e.name)
    ensures WordNames(AddedTo(dirs, p, e, isDir))
  {
    var dirs' := AddedTo(dirs, p, e, isDir);
    forall q, k: nat | At(dirs', q, k) ensures !AllDigits(dirs'[q][k].name) {
      if dirs'[q][k] != e {
        assert At(dirs, q, k) && dirs'[q][k] == dirs[q][k];
      }
    }
  }

  lemma DroppedWords(dirs: map<nat, seq<Entry>>, p: nat, t: nat)
    requires WordNames(dirs) && At(dirs, p, t)
    ensures WordNames(Dropped(dirs, p, t))
  {
    var dirs' := Dropped(dirs, p, t);
    forall q, k: nat | At(dirs', q, k) ensures !AllDigits(dirs'[q][k].name) {
      FromBefore(dirs, p, t, q, k);
    }
  }

  lemma StepKeepsWords(s: State, s': State, op: Op)
    requires Does(s, s', op) && WordNames(s.dirs) && (op.Add? ==> !AllDigits(op.entry.name))
    ensures WordNames(s'.dirs) && !DropsHidden(s, op)
  {
    match op
    case Add(p, e, f) => AddedWords(s.dirs, p, e, f.typ == T_DIR);
    case Drop(p, t, q) =>
      DroppedWords(s.dirs, p, t);
      WordsAreNotHidden(s.dirs[p], t);
    case Change(_, _) =>
  }

  ghost predicate AddsWords(ops: seq<Op>)
  {
    forall k | 0 <= k < |ops| && ops[k].Add? :: !AllDigits(ops[k].entry.name)
  }

  lemma {:induction false} WordsStay(ss: seq<State>, ops: seq<Op>, n: nat)
    requires IsRun(ss, ops) && AddsWords(ops) && n <= |ops|
    ensures WordNames(ss[n].dirs)
  {
    if n > 0 {
      WordsStay(ss, ops, n - 1);
      assert Step(ss, ops, n - 1);
      StepKeepsWords(ss[n - 1], ss[n], ops[n - 1]);
    }
  }

  lemma WordsHideNothing(ss: seq<State>, ops: seq<Op>, n: nat)
    requires IsRun(ss, ops) && AddsWords(ops) && n <= |ops|
    ensures NoneHidden(ss, ops, n)
  {
    forall k: nat | k < n ensures !DropsHidden(ss[k], ops[k]) {
      WordsStay(ss, ops, k);
      assert Step(ss, ops, k);
      StepKeepsWords(ss[k], ss[k + 1], ops[k]);
    }
  }

  /** Runs in which every name added has a character that is not a digit go right. */
  lemma WordRunsKeepTree(ss: seq<State>, ops: seq<Op>, n: nat)
    requires IsRun(ss, ops) && AddsWords(ops) && n <= |ops|
    ensures Good(ss[n])
  {
    WordsHideNothing(ss, ops, n);
    RunsKeepTree(ss, ops, n);
  }

  // ---- no orphans -------------------------------------------------------------------------

  /** The operation adds to a directory, or deletes what is no directory that lists something. */
  ghost predicate Gentle(s: State, op: Op)
  {
    match op
    case Add(p, _, _) => p in s.dirs
    case Drop(p, t, _) => At(s.dirs, p, t) ==> Childless(s.dirs, s.dirs[p][t].inum)
    case Change(_, _) => true
  }

  ghost predicate NoOrphans(s: State)
  {
    AllReached(s.files.Keys, s.dirs)
  }

  lemma DropKeys(s: State, s': State, p: nat, t: nat, q: nat)
    requires Good(s) && Does(s, s', Drop(p, t, q))
    ensures s'.files.Keys == s.files.Keys - {s.dirs[p][t].inum}
  {
    assert s.dirs[p][t].inum != p;
  }

  lemma DropOrphans(live: set<nat>, live': set<nat>, dirs: map<nat, seq<Entry>>, p: nat, t: nat)
    requires TreeInv(live, dirs) && AllReached(live, dirs) && At(dirs, p, t) && live' == live - {dirs[p][t].inum}
    ensures AllReached(live', Dropped(dirs, p, t)) <==> Childless(dirs, dirs[p][t].inum)
  {
    DropKeepsReachedExactly(live, dirs, p, t);
  }

  /** A step orphans no inode exactly when it is gentle. */
  lemma StepOrphansExactly(s: State, s': State, op: Op)
    requires Good(s) && NoOrphans(s) && Does(s, s', op)
    ensures NoOrphans(s') <==> Gentle(s, op)
  {
    match op
    case Add(p, e, f) =>
      assert s'.files.Keys == s.files.Keys + {e.inum};
      if p in s.dirs {
        AddKeepsReached(s.files.Keys, s.dirs, p, e, f.typ == T_DIR);
      } else {
        StrayIsOrphan(s.files.Keys, s.dirs, p, e, f.typ == T_DIR);
      }
    case Drop(p, t, q) =>
      DropKeys(s, s', p, t, q);
      DropOrphans(s.files.Keys, s'.files.Keys, s.dirs, p, t);
    case Change(_, _) => assert s'.files.Keys == s.files.Keys;
  }

  ghost predicate AllGentle(ss: seq<State>, ops: seq<Op>, n: nat)
    requires n <= |ops| < |ss|
  {
    forall k: nat | k < n :: Gentle(ss[k], ops[k])
  }

  lemma {:induction false} GentleRuns(ss: seq<State>, ops: seq<Op>, n: nat)
    requires IsRun(ss, ops) && n <= |ops| && NoneHidden(ss, ops, n) && AllGentle(ss, ops, n)
    ensures NoOrphans(ss[n])
  {
    if n == 0 {
      assert Reached(Start().dirs, ROOT, 0);
    } else {
      GentleRuns(ss, ops, n - 1);
      RunsKeepTree(ss, ops, n - 1);
      assert Step(ss, ops, n - 1);
      StepOrphansExactly(ss[n - 1], ss[n], ops[n - 1]);
    }
  }

  lemma {:induction false} RoughStepOrphans(ss: seq<State>, ops: seq<Op>, k: nat)
    requires IsRun(ss, ops) && k < |ops| && NoneHidden(ss, ops, k) && !Gentle(ss[k], ops[k])
    ensures exists j: nat :: j <= k + 1 && !NoOrphans(ss[j])
  {
    if AllGentle(ss, ops, k) {
      GentleRuns(ss, ops, k);
      RunsKeepTree(ss, ops, k);
      assert Step(ss, ops, k);
      StepOrphansExactly(ss[k], ss[k + 1], ops[k]);
    } else {
      var j: nat :| j < k && !Gentle(ss[j], ops[j]);
      RoughStepOrphans(ss, ops, j);
    }
  }

  /** In a run that deletes no hidden entry, a path of names leads from the root to every live inode
      at all times exactly when files are only made in directories and no directory that lists
      something is unlinked. */
  lemma RunsOrphanExactly(ss: seq<State>, ops: seq<Op>)
    requires IsRun(ss, ops) && NoneHidden(ss, ops, |ops|)
    ensures (forall j: nat | j < |ss| :: NoOrphans(ss[j])) <==> AllGentle(ss, ops, |ops|)
  {
    if AllGentle(ss, ops, |ops|) {
      forall j: nat | j < |ss| ensures NoOrphans(ss[j]) {
        GentleRuns(ss, ops, j);
      }
    } else {
      var k: nat :| k < |ops| && !Gentle(ss[k], ops[k]);
      RoughStepOrphans(ss, ops, k);
    }
  }
}
