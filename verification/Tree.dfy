/** Directories of a file system as a whole: what create, mkdir, symlink and unlink keep. */
module Tree {
  import opened Directory
  import opened Unlink

  /** The root directory's inode number. */
  const ROOT: nat := 1

  /** A place in a directory. */
  ghost predicate At(dirs: map<nat, seq<Entry>>, p: nat, k: nat)
  {
    p in dirs && k < |dirs[p]|
  }

  /** The root is a directory; directories are live, list each name once, and list live inodes
      other than the root and themselves; no inode is listed in two places. */
  ghost predicate TreeInv(live: set<nat>, dirs: map<nat, seq<Entry>>)
  {
    && ROOT in dirs && dirs.Keys <= live
    && (forall p | p in dirs :: Valid(dirs[p]))
    && (forall p, k: nat | At(dirs, p, k) ::
          dirs[p][k].inum in live && dirs[p][k].inum != ROOT && dirs[p][k].inum != p)
    && (forall p, j: nat, q, k: nat | At(dirs, p, j) && At(dirs, q, k) && p != q ::
          dirs[p][j].inum != dirs[q][k].inum)
  }

  predicate NameIn(es: seq<Entry>, name: Text)
  {
    exists k :: 0 <= k < |es| && es[k].name == name
  }

  lemma ValidAppend(es: seq<Entry>, e: Entry)
    requires Valid(es) && SlashFree(e.name) && !NameIn(es, e.name)
    requires forall k | 0 <= k < |es| :: es[k].inum != e.inum
    ensures Valid(es + [e])
  {
  }

  lemma ValidWithout(es: seq<Entry>, t: nat)
    requires Valid(es) && t < |es|
    ensures Valid(Without(es, t))
    ensures forall k | 0 <= k < |Without(es, t)| :: Without(es, t)[k] == es[if k < t then k else k + 1]
  {
  }

  /** An inode that was not live is listed under a new name; it may be a directory, then an empty one. */
  function Added(dirs: map<nat, seq<Entry>>, p: nat, e: Entry, isDir: bool): map<nat, seq<Entry>>
    requires p in dirs
  {
    var dirs' := dirs[p := dirs[p] + [e]];
    if isDir then dirs'[e.inum := []] else dirs'
  }

  lemma AddKeepsTree(live: set<nat>, dirs: map<nat, seq<Entry>>, p: nat, e: Entry, isDir: bool)
    requires TreeInv(live, dirs) && p in dirs && e.inum !in live && SlashFree(e.name) && !NameIn(dirs[p], e.name)
    ensures TreeInv(live + {e.inum}, Added(dirs, p, e, isDir))
  {
    var es, dirs' := dirs[p], Added(dirs, p, e, isDir);
    forall k | 0 <= k < |es| ensures es[k].inum != e.inum {
      assert At(dirs, p, k);
    }
    ValidAppend(es, e);
    forall q, k: nat | At(dirs', q, k)
      ensures (q == p && k == |es| && dirs'[q][k] == e) || (At(dirs, q, k) && dirs'[q][k] == dirs[q][k])
    {
    }
  }

  /** The same when p need not be a directory; if it is none, the new inode is not listed. */
  function AddedTo(dirs: map<nat, seq<Entry>>, p: nat, e: Entry, isDir: bool): map<nat, seq<Entry>>
  {
    if p in dirs then Added(dirs, p, e, isDir) else if isDir then dirs[e.inum := []] else dirs
  }

  lemma StrayKeepsTree(live: set<nat>, dirs: map<nat, seq<Entry>>, p: nat, e: Entry, isDir: bool)
    requires TreeInv(live, dirs) && p !in dirs && e.inum !in live
    ensures TreeInv(live + {e.inum}, AddedTo(dirs, p, e, isDir))
  {
    var dirs' := AddedTo(dirs, p, e, isDir);
    forall q, k: nat | At(dirs', q, k) ensures At(dirs, q, k) && dirs'[q][k] == dirs[q][k] {
    }
  }

  /** Entry t of directory p is taken out and its inode dies. */
  function Dropped(dirs: map<nat, seq<Entry>>, p: nat, t: nat): map<nat, seq<Entry>>
    requires p in dirs && t < |dirs[p]|
  {
    dirs[p := Without(dirs[p], t)] - {dirs[p][t].inum}
  }

  lemma DropKeepsTree(live: set<nat>, dirs: map<nat, seq<Entry>>, p: nat, t: nat)
    requires TreeInv(live, dirs) && At(dirs, p, t)
    ensures TreeInv(live - {dirs[p][t].inum}, Dropped(dirs, p, t))
  {
    var es, i, dirs' := dirs[p], dirs[p][t].inum, Dropped(dirs, p, t);
    ValidWithout(es, t);
    forall q, k: nat | At(dirs', q, k) ensures dirs'[q][k].inum != i && q in dirs && q != i {
      if q == p {
        assert At(dirs, p, if k < t then k else k + 1);
      } else {
        assert At(dirs, q, k);
      }
    }
    forall q, k: nat | At(dirs', q, k)
      ensures dirs'[q][k].inum in live && dirs'[q][k].inum != ROOT && dirs'[q][k].inum != q
    {
      FromBefore(dirs, p, t, q, k);
    }
    forall q, j: nat, r, k: nat | At(dirs', q, j) && At(dirs', r, k) && q != r
      ensures dirs'[q][j].inum != dirs'[r][k].inum
    {
      FromBefore(dirs, p, t, q, j);
      FromBefore(dirs, p, t, r, k);
    }
  }

  /** What is listed after a deletion was listed before it, in the same directory. */
  lemma FromBefore(dirs: map<nat, seq<Entry>>, p: nat, t: nat, q: nat, k: nat)
    requires At(dirs, p, t) && At(Dropped(dirs, p, t), q, k)
    ensures exists j: nat :: At(dirs, q, j) && dirs[q][j] == Dropped(dirs, p, t)[q][k]
  {
    if q == p {
      var j := if k < t then k else k + 1;
      assert At(dirs, p, j) && dirs[p][j] == Without(dirs[p], t)[k];
    } else {
      assert At(dirs, q, k);
    }
  }

  // ---- paths from the root ---------------------------------------------------------------

  /** Entry k of directory p is for inode i. */
  ghost predicate ListedAt(dirs: map<nat, seq<Entry>>, i: nat, p: nat, k: nat)
  {
    At(dirs, p, k) && dirs[p][k].inum == i
  }

  /** A path of n names leads from the root to inode i. */
  ghost predicate Reached(dirs: map<nat, seq<Entry>>, i: nat, n: nat)
    decreases n
  {
    if n == 0 then i == ROOT else exists p: nat, k: nat :: ListedAt(dirs, i, p, k) && Reached(dirs, p, n - 1)
  }

  /** A path leads to every live inode: none is orphaned. */
  ghost predicate AllReached(live: set<nat>, dirs: map<nat, seq<Entry>>)
  {
    forall i | i in live :: exists n: nat :: Reached(dirs, i, n)
  }

  lemma {:induction false} AddedReached(dirs: map<nat, seq<Entry>>, p: nat, e: Entry, isDir: bool, i: nat, n: nat)
    requires p in dirs && e.inum !in dirs && Reached(dirs, i, n)
    ensures Reached(Added(dirs, p, e, isDir), i, n)
    decreases n
  {
    if n > 0 {
      var q: nat, k: nat :| ListedAt(dirs, i, q, k) && Reached(dirs, q, n - 1);
      AddedReached(dirs, p, e, isDir, q, n - 1);
      assert ListedAt(Added(dirs, p, e, isDir), i, q, k);
    }
  }

  lemma OneStepOn(dirs: map<nat, seq<Entry>>, i: nat, p: nat, k: nat, n: nat)
    requires ListedAt(dirs, i, p, k) && Reached(dirs, p, n)
    ensures Reached(dirs, i, n + 1)
  {
  }

  /** A new entry gives its inode a path and takes none away. */
  lemma AddKeepsReached(live: set<nat>, dirs: map<nat, seq<Entry>>, p: nat, e: Entry, isDir: bool)
    requires TreeInv(live, dirs) && AllReached(live, dirs) && p in dirs && e.inum !in live
    ensures AllReached(live + {e.inum}, Added(dirs, p, e, isDir))
  {
    var dirs' := Added(dirs, p, e, isDir);
    forall i | i in live ensures exists n: nat :: Reached(dirs', i, n) {
      var n: nat :| Reached(dirs, i, n);
      AddedReached(dirs, p, e, isDir, i, n);
    }
    var n: nat :| Reached(dirs', p, n);
    OneStepOn(dirs', e.inum, p, |dirs[p]|, n);
  }

  /** What is not listed is not reached. */
  lemma UnlistedOrphan(live: set<nat>, dirs: map<nat, seq<Entry>>, i: nat)
    requires i in live && i != ROOT && forall p: nat, k: nat :: !ListedAt(dirs, i, p, k)
    ensures !AllReached(live, dirs)
  {
    if n: nat :| Reached(dirs, i, n) {
    }
  }

  /** An inode made in what is no directory is an orphan. */
  lemma StrayIsOrphan(live: set<nat>, dirs: map<nat, seq<Entry>>, p: nat, e: Entry, isDir: bool)
    requires TreeInv(live, dirs) && p !in dirs && e.inum !in live
    ensures !AllReached(live + {e.inum}, AddedTo(dirs, p, e, isDir))
  {
    var dirs' := AddedTo(dirs, p, e, isDir);
    forall q: nat, k: nat ensures !ListedAt(dirs', e.inum, q, k) {
      if ListedAt(dirs', e.inum, q, k) {
        assert At(dirs, q, k);
      }
    }
    assert ROOT in live;
    UnlistedOrphan(live + {e.inum}, dirs', e.inum);
  }

  /** Inode i is no directory that lists something. */
  predicate Childless(dirs: map<nat, seq<Entry>>, i: nat)
  {
    i in dirs ==> dirs[i] == []
  }

  lemma StillListed(dirs: map<nat, seq<Entry>>, p: nat, t: nat, i: nat, q: nat, k: nat)
    requires At(dirs, p, t) && ListedAt(dirs, i, q, k) && i != dirs[p][t].inum && q != dirs[p][t].inum
    ensures exists k': nat :: ListedAt(Dropped(dirs, p, t), i, q, k')
  {
    var dirs' := Dropped(dirs, p, t);
    if q == p && k > t {
      assert Without(dirs[p], t)[k - 1] == dirs[p][k];
      assert ListedAt(dirs', i, q, k - 1);
    } else {
      assert ListedAt(dirs', i, q, k);
    }
  }

  lemma {:induction false} DroppedReached(dirs: map<nat, seq<Entry>>, p: nat, t: nat, i: nat, n: nat)
    requires At(dirs, p, t) && Childless(dirs, dirs[p][t].inum) && i != dirs[p][t].inum && Reached(dirs, i, n)
    ensures Reached(Dropped(dirs, p, t), i, n)
    decreases n
  {
    if n > 0 {
      var q: nat, k: nat :| ListedAt(dirs, i, q, k) && Reached(dirs, q, n - 1);
      DroppedReached(dirs, p, t, q, n - 1);
      StillListed(dirs, p, t, i, q, k);
    }
  }

  lemma ChildLost(live: set<nat>, dirs: map<nat, seq<Entry>>, p: nat, t: nat, i: nat)
    requires TreeInv(live, dirs) && At(dirs, p, t) && i == dirs[p][t].inum && At(dirs, i, 0)
    ensures !AllReached(live - {i}, Dropped(dirs, p, t))
  {
    var dirs', j := Dropped(dirs, p, t), dirs[i][0].inum;
    forall q: nat, k: nat ensures !ListedAt(dirs', j, q, k) {
      if ListedAt(dirs', j, q, k) {
        FromBefore(dirs, p, t, q, k);
      }
    }
    UnlistedOrphan(live - {i}, dirs', j);
  }

  /** Dropping an entry orphans nothing exactly when its inode is no directory that lists something. */
  lemma DropKeepsReachedExactly(live: set<nat>, dirs: map<nat, seq<Entry>>, p: nat, t: nat)
    requires TreeInv(live, dirs) && AllReached(live, dirs) && At(dirs, p, t)
    ensures AllReached(live - {dirs[p][t].inum}, Dropped(dirs, p, t)) <==> Childless(dirs, dirs[p][t].inum)
  {
    var i, dirs' := dirs[p][t].inum, Dropped(dirs, p, t);
    if Childless(dirs, i) {
      forall j | j in live - {i} ensures exists n: nat :: Reached(dirs', j, n) {
        var n: nat :| Reached(dirs, j, n);
        DroppedReached(dirs, p, t, j, n);
      }
    } else {
      ChildLost(live, dirs, p, t, i);
    }
  }
}
