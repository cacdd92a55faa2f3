/** Directories as they stand in files, and what the operations on them keep. */
module FileTree {
  import opened Files
  import opened Directory
  import opened Unlink
  import opened Tree

  predicate IsDir(m: map<nat, File>, p: nat)
  {
    p in m && m[p].typ == T_DIR
  }

  /** These are the directories among the files, and their contents are in the format of entries. */
  ghost predicate Shows(m: map<nat, File>, dirs: map<nat, seq<Entry>>)
  {
    && (forall p :: p in dirs <==> IsDir(m, p))
    && (forall p | p in dirs :: m[p].data == Encode(dirs[p]))
  }

  /** The directories dirs among the files m are well formed: names unique in each, numbers unique
      among all, live, and never the root's. */
  ghost predicate DirInv(m: map<nat, File>, dirs: map<nat, seq<Entry>>)
  {
    Shows(m, dirs) && TreeInv(m.Keys, dirs)
  }

  lemma ShowsPut(m: map<nat, File>, dirs: map<nat, seq<Entry>>, p: nat, es: seq<Entry>)
    requires Shows(m, dirs) && IsDir(m, p)
    ensures Shows(m[p := File(T_DIR, Encode(es))], dirs[p := es])
  {
  }

  lemma EncodeNothing()
    ensures Encode([]) == []
  {
  }

  /** A new file; if it is a directory, it is empty. */
  lemma ShowsNew(m: map<nat, File>, dirs: map<nat, seq<Entry>>, i: nat, f: File)
    requires Shows(m, dirs) && i !in m && (f.typ == T_DIR ==> f.data == [])
    ensures Shows(m[i := f], if f.typ == T_DIR then dirs[i := []] else dirs)
  {
    EncodeNothing();
  }

  lemma ShowsRemove(m: map<nat, File>, dirs: map<nat, seq<Entry>>, i: nat)
    requires Shows(m, dirs)
    ensures Shows(m - {i}, dirs - {i})
  {
  }

  /** The files once file f is there under e's number and e is listed in p. */
  function WithEntry(m: map<nat, File>, p: nat, e: Entry, f: File): map<nat, File>
  {
    if p in m then m[e.inum := f][p := File(m[p].typ, m[p].data + EntryText(e))] else m
  }

  lemma EnterShows(m: map<nat, File>, dirs: map<nat, seq<Entry>>, p: nat, e: Entry, f: File)
    requires Shows(m, dirs) && p in dirs && e.inum !in m && (f.typ == T_DIR ==> f.data == [])
    ensures Shows(WithEntry(m, p, e, f), Added(dirs, p, e, f.typ == T_DIR))
  {
    var m1, dirs1 := m[e.inum := f], if f.typ == T_DIR then dirs[e.inum := []] else dirs;
    ShowsNew(m, dirs, e.inum, f);
    ShowsPut(m1, dirs1, p, dirs[p] + [e]);
    EncodeAppend(dirs[p], e);
    assert Added(dirs, p, e, f.typ == T_DIR) == dirs1[p := dirs[p] + [e]];
  }

  /** Creating a file, directory or symbolic link under a new name adds exactly that entry. */
  lemma EnterKeeps(m: map<nat, File>, dirs: map<nat, seq<Entry>>, p: nat, e: Entry, f: File)
    requires DirInv(m, dirs) && p in dirs && SlashFree(e.name) && !NameIn(dirs[p], e.name)
    requires e.inum !in m && (f.typ == T_DIR ==> f.data == [])
    ensures DirInv(WithEntry(m, p, e, f), Added(dirs, p, e, f.typ == T_DIR))
  {
    EnterShows(m, dirs, p, e, f);
    AddKeepsTree(m.Keys, dirs, p, e, f.typ == T_DIR);
    assert WithEntry(m, p, e, f).Keys == m.Keys + {e.inum};
  }

  /** Changing a file that is no directory changes no directory. */
  lemma ChangeShows(m: map<nat, File>, dirs: map<nat, seq<Entry>>, i: nat, f: File)
    requires Shows(m, dirs) && i in m && m[i].typ != T_DIR && f.typ == m[i].typ
    ensures Shows(m[i := f], dirs) && m[i := f].Keys == m.Keys
  {
    forall p ensures IsDir(m[i := f], p) <==> IsDir(m, p) {
    }
  }

  /** Where the parent is no directory, a file is added that no directory lists. */
  lemma StrayKeeps(m: map<nat, File>, dirs: map<nat, seq<Entry>>, p: nat, e: Entry, f: File)
    requires DirInv(m, dirs) && p in m && p !in dirs && e.inum !in m && (f.typ == T_DIR ==> f.data == [])
    ensures DirInv(WithEntry(m, p, e, f), AddedTo(dirs, p, e, f.typ == T_DIR))
  {
    var m1 := m[e.inum := f];
    ShowsNew(m, dirs, e.inum, f);
    assert IsDir(m, p) <==> p in dirs;
    ChangeShows(m1, AddedTo(dirs, p, e, f.typ == T_DIR), p, File(m1[p].typ, m1[p].data + EntryText(e)));
    StrayKeepsTree(m.Keys, dirs, p, e, f.typ == T_DIR);
    assert WithEntry(m, p, e, f).Keys == m.Keys + {e.inum};
  }

  lemma DropShows(m: map<nat, File>, dirs: map<nat, seq<Entry>>, p: nat, t: nat)
    requires Shows(m, dirs) && At(dirs, p, t) && dirs[p][t].inum != p
    ensures Shows((m - {dirs[p][t].inum})[p := File(T_DIR, Encode(Without(dirs[p], t)))], Dropped(dirs, p, t))
  {
    var i := dirs[p][t].inum;
    ShowsRemove(m, dirs, i);
    ShowsPut(m - {i}, dirs - {i}, p, Without(dirs[p], t));
    assert Dropped(dirs, p, t) == (dirs - {i})[p := Without(dirs[p], t)];
  }

  /** Unlinking an entry that is not hidden drops exactly that entry and its inode. */
  lemma DropKeeps(m: map<nat, File>, dirs: map<nat, seq<Entry>>, p: nat, t: nat)
    requires DirInv(m, dirs) && At(dirs, p, t)
    ensures dirs[p][t].inum != p
    ensures DirInv((m - {dirs[p][t].inum})[p := File(T_DIR, Encode(Without(dirs[p], t)))], Dropped(dirs, p, t))
  {
    var i := dirs[p][t].inum;
    DropShows(m, dirs, p, t);
    DropKeepsTree(m.Keys, dirs, p, t);
    assert (m - {i})[p := File(T_DIR, Encode(Without(dirs[p], t)))].Keys == m.Keys - {i};
  }

  /** The text that is left of es when the text of entry t is deleted where it is first found. */
  ghost predicate LeftAs(es: seq<Entry>, t: nat, text: Text)
    requires t < |es|
  {
    forall q: nat | IsFirst(Encode(es), EntryText(es[t]), q) :: text == Deleted(Encode(es), q, |EntryText(es[t])|)
  }

  lemma LeftIs(es: seq<Entry>, t: nat, q: nat, text: Text)
    requires t < |es| && IsFirst(Encode(es), EntryText(es[t]), q)
    requires text == Deleted(Encode(es), q, |EntryText(es[t])|)
    ensures LeftAs(es, t, text)
  {
    OnlyFirst(Encode(es), EntryText(es[t]), q);
  }

  lemma OnlyFirst(s: Text, pat: Text, q: nat)
    requires IsFirst(s, pat, q)
    ensures forall r: nat | IsFirst(s, pat, r) :: r == q
  {
  }

  /** The text left by the deletion of a hidden entry still lists that entry. */
  lemma HiddenStays(es: seq<Entry>, t: nat, text: Text, es': seq<Entry>)
    requires Valid(es) && t < |es| && Hidden(Names(es), Nums(es), t) && LeftAs(es, t, text)
    requires NamesSlashFree(es') && Encode(es') == text
    ensures 0 < t <= |es'| && es'[t - 1] == es[t]
  {
    EntryFound(es, t);
    var q: nat :| IsFirst(Encode(es), EntryText(es[t]), q);
    HiddenStaysListed(es, t, q, es');
  }

  lemma ShowsText(m: map<nat, File>, dirs: map<nat, seq<Entry>>, p: nat, text: Text)
    requires Shows(m, dirs) && p in m && m[p] == File(T_DIR, text)
    ensures p in dirs && Encode(dirs[p]) == text
  {
    assert IsDir(m, p);
  }

  lemma HiddenDeadListed(live: set<nat>, es: seq<Entry>, p: nat, t: nat, text: Text, dirs: map<nat, seq<Entry>>)
    requires Valid(es) && t < |es| && Hidden(Names(es), Nums(es), t) && LeftAs(es, t, text)
    requires p in dirs && Encode(dirs[p]) == text && es[t].inum !in live
    ensures !TreeInv(live, dirs)
  {
    if TreeInv(live, dirs) {
      HiddenStays(es, t, text, dirs[p]);
      assert false;
    }
  }

  /** A directory that holds such a text, while the inode of the entry is dead, is in no tree of
      directories, whatever the directories are said to list. */
  lemma HiddenDropBreaks(m: map<nat, File>, es: seq<Entry>, p: nat, t: nat, text: Text, dirs: map<nat, seq<Entry>>)
    requires Valid(es) && t < |es| && Hidden(Names(es), Nums(es), t) && LeftAs(es, t, text)
    requires p in m && m[p] == File(T_DIR, text) && es[t].inum !in m && Shows(m, dirs)
    ensures !TreeInv(m.Keys, dirs)
  {
    ShowsText(m, dirs, p, text);
    HiddenDeadListed(m.Keys, es, p, t, text, dirs);
  }
}
