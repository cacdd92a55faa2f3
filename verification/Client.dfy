/** The file system operations of yfs_client.cc, over the extent server. */
module Client {
  import opened Words
  import opened Disk
  import opened Inodes
  import opened Files
  import opened InodeLayer
  import opened Extents
  import opened Directory
  import opened Unlink
  import opened Tree
  import opened FileTree
  import opened TreeRuns

  /** extent_protocol's other types. */
  const T_FILE: nat := 2
  const T_SYMLINK: nat := 3

  datatype Status = OK | RPCERR | NOENT | IOERR | EXIST

  // ---- reading and writing parts of files ------------------------------------------------

  function Resized(buf: Text, n: nat): (r: Text)
    ensures |r| == n
    ensures forall k | 0 <= k < n :: r[k] == if k < |buf| then buf[k] else 0
  {
    if n <= |buf| then buf[..n] else buf + seq(n - |buf|, k => 0)
  }

  /** The content after data is written at off; a hole before it is filled with zero bytes. */
  function WrittenAt(buf: Text, off: nat, data: Text): (r: Text)
    ensures |r| == if off + |data| > |buf| then off + |data| else |buf|
    ensures forall k | 0 <= k < |r| ::
      r[k] == if off <= k < off + |data| then data[k - off] else if k < |buf| then buf[k] else 0
  {
    Patched(buf, off, data)
  }

  /** resize, where the offset lies beyond the end, and replace. */
  function Patched(buf: Text, off: nat, data: Text): Text
  {
    var b := if off > |buf| then Resized(buf, off) else buf;
    b[..off] + data + if off + |data| <= |b| then b[off + |data|..] else []
  }

  /** The bytes from off on, at most size of them. */
  function ReadAt(buf: Text, off: nat, size: nat): (r: Text)
    ensures |r| == if off >= |buf| then 0 else if size <= |buf| - off then size else |buf| - off
    ensures forall k | 0 <= k < |r| :: r[k] == buf[off + k]
  {
    if |buf| <= off then [] else if off + size <= |buf| then buf[off..off + size] else buf[off..]
  }

  /** What was written is read back, and bytes outside it stay as they were. */
  lemma ReadAfterWrite(buf: Text, off: nat, data: Text, off': nat, size: nat)
    ensures ReadAt(WrittenAt(buf, off, data), off, |data|) == data
    ensures off' + size <= off || off + |data| <= off' ==> off' + size <= |buf| ==>
      ReadAt(WrittenAt(buf, off, data), off', size) == ReadAt(buf, off', size)
  {
  }

  // ---- room ------------------------------------------------------------------------------

  /** The new entry fits its directory, and the file of this content the disk. */
  ghost predicate EntryFits(m: map<nat, File>, p: nat, name: Text, f: File)
  {
    && p in m && InumLeft(m)
    && forall i: nat | IsLeastFree(m, i) ::
         Fits(m, i, |f.data|) && Fits(m[i := f], p, |m[p].data| + |EntryText(Entry(name, i))|)
  }

  lemma EntryFitsFor(m: map<nat, File>, p: nat, name: Text, f: File, i: nat)
    requires EntryFits(m, p, name, f) && IsLeastFree(m, i)
    ensures i != p && Fits(m[i := f], p, |m[i := f][p].data| + |EntryText(Entry(name, i))|)
  {
  }

  lemma EntryFitsAll(m: map<nat, File>, p: nat, name: Text, f: File)
    requires EntryFits(m, p, name, f)
    ensures InumLeft(m) && forall i: nat | IsLeastFree(m, i) :: Fits(m, i, |f.data|)
  {
  }

  /** What fits in place of nothing fits in place of an empty file. */
  lemma CreatedFits(m: map<nat, File>, i: nat, t: nat, size: nat)
    requires IsInum(i) && i !in m && Fits(m, i, size)
    ensures Fits(m[i := File(t, [])], i, size)
  {
    EmptyFits(m, i, t);
  }

  lemma BlocksMonotone(a: nat, b: nat)
    requires a <= b
    ensures TotalBlocks(Blocks(a)) <= TotalBlocks(Blocks(b))
  {
  }

  lemma EmptyFits(m: map<nat, File>, i: nat, t: nat)
    requires IsInum(i) && i !in m
    ensures BlocksNeeded(m[i := File(t, [])]) == BlocksNeeded(m)
  {
    NeededAfter(m, m[i := File(t, [])], i);
  }

  /** A directory that got shorter still fits after a file is removed. */
  lemma ShorterFits(m: map<nat, File>, i: nat, p: nat, size: nat)
    requires IsInum(i) && IsInum(p) && p in m && p != i && BlocksNeeded(m) <= 31734
    requires size <= |m[p].data| <= MAX_SIZE
    ensures Fits(m - {i}, p, size)
  {
    NeededAfter(m, m - {i}, i);
    BlocksMonotone(size, |m[p].data|);
  }

  // ---- the client ------------------------------------------------------------------------

  /** Directory p lists the name. */
  predicate HasName(dirs: map<nat, seq<Entry>>, p: nat, name: Text)
  {
    p in dirs && NameIn(dirs[p], name)
  }

  /** The file f is made under the least free number, and its entry is added to p. */
  ghost predicate Makes(m: map<nat, File>, m': map<nat, File>, dirs: map<nat, seq<Entry>>, p: nat, e: Entry, f: File)
  {
    var dirs' := AddedTo(dirs, p, e, f.typ == T_DIR);
    IsLeastFree(m, e.inum) && Does(State(m, dirs), State(m', dirs'), Add(p, e, f)) && DirInv(m', dirs')
  }

  lemma MadeIs(m: map<nat, File>, m': map<nat, File>, dirs: map<nat, seq<Entry>>, p: nat, e: Entry, f: File)
    requires DirInv(m, dirs) && p in m && SlashFree(e.name) && !HasName(dirs, p, e.name)
    requires IsLeastFree(m, e.inum) && (f.typ == T_DIR ==> f.data == []) && m' == WithEntry(m, p, e, f)
    ensures Makes(m, m', dirs, p, e, f)
  {
    AddKeepsGood(State(m, dirs), State(m', AddedTo(dirs, p, e, f.typ == T_DIR)), p, e, f);
  }

  /** Entry t of directory p and its inode are gone, if the text found at q was that entry's; if it was
      not, no tree of directories is left. */
  ghost predicate Unlinks(m: map<nat, File>, m': map<nat, File>, dirs: map<nat, seq<Entry>>, p: nat, t: nat, q: nat)
  {
    && At(dirs, p, t) && p in m' && m' == (m - {dirs[p][t].inum})[p := m'[p]]
    && Does(State(m, dirs), State(m', Dropped(dirs, p, t)), Drop(p, t, q))
    && (DirInv(m', Dropped(dirs, p, t)) <==> !Hidden(Names(dirs[p]), Nums(dirs[p]), t))
    && (IsTree(m') <==> !Hidden(Names(dirs[p]), Nums(dirs[p]), t))
  }

  lemma UnlinkedIs(m: map<nat, File>, m': map<nat, File>, dirs: map<nat, seq<Entry>>, p: nat, t: nat, q: nat)
    requires DirInv(m, dirs) && At(dirs, p, t) && IsFirst(Encode(dirs[p]), EntryText(dirs[p][t]), q)
    requires m' == (m - {dirs[p][t].inum})[p := File(T_DIR, Deleted(Encode(dirs[p]), q, |EntryText(dirs[p][t])|))]
    ensures Unlinks(m, m', dirs, p, t, q)
  {
    assert IsDir(m, p) && m[p].data == Encode(dirs[p]);
    StepKeepsTreeExactly(State(m, dirs), State(m', Dropped(dirs, p, t)), Drop(p, t, q));
  }

  /** The data of file i is replaced; if it is no directory, this keeps the directories. */
  ghost predicate Changes(m: map<nat, File>, m': map<nat, File>, dirs: map<nat, seq<Entry>>, i: nat, data: Text)
  {
    && i in m && m' == m[i := File(m[i].typ, data)]
    && (m[i].typ != T_DIR ==> Does(State(m, dirs), State(m', dirs), Change(i, data)))
    && (m[i].typ != T_DIR && DirInv(m, dirs) ==> DirInv(m', dirs))
  }

  lemma ChangedIs(m: map<nat, File>, m': map<nat, File>, dirs: map<nat, seq<Entry>>, i: nat, data: Text)
    requires i in m && m' == m[i := File(m[i].typ, data)]
    ensures Changes(m, m', dirs, i, data)
  {
    if m[i].typ != T_DIR && DirInv(m, dirs) {
      ChangeShows(m, dirs, i, File(m[i].typ, data));
    }
  }

  /** Inodes are named by identifiers; p is always the inode that the server takes one for.  Inode 1023,
      which has no storage, is not asked for. */
  class YfsClient {
    const ec: ExtentServer

    constructor (server: ExtentServer)
      ensures ec == server
    {
      ec := server;
    }

    /** Looks a name up.  A parent that is no directory holds nothing. */
    method Lookup(ghost dirs: map<nat, seq<Entry>>, ghost p: nat, parent: nat, name: Text)
      returns (r: Status, found: bool, ino: nat, ghost t: nat)
      requires ec.Valid() && DirInv(ec.Held(), dirs) && p == Masked(parent) != INODE_NUM - 1
      modifies ec, ec.im.bm.disk.blocks
      ensures ec.Valid() && ec.Held() == old(ec.Held())
      ensures r == if found then EXIST else OK
      ensures found <==> HasName(dirs, p, name)
      ensures found ==> IsFound(dirs[p], name, t) && t < |dirs[p]| && ino == dirs[p][t].inum
    {
      found, ino, r, t := false, 0, OK, 0;
      var a := ec.GetAttr(parent);
      if a.typ != T_DIR {
        return;
      }
      assert p in dirs;
      var buf := ec.Get(parent);
      found, ino, t := SearchText(dirs[p], buf, name);
      r := if found then EXIST else OK;
    }

    /** Appends a new inode's entry to its parent. */
    method Enter(ghost p: nat, parent: nat, name: Text, ino: nat)
      requires ec.Valid() && p == Masked(parent) && p in ec.Held()
      requires Fits(ec.Held(), p, |ec.Held()[p].data| + |EntryText(Entry(name, ino))|)
      modifies ec, ec.im.bm.disk.blocks
      ensures ec.Valid()
      ensures var m := old(ec.Held()); ec.Held() == m[p := File(m[p].typ, m[p].data + EntryText(Entry(name, ino)))]
    {
      ec.HeldFits();
      var ent := name + [SLASH] + Dec(ino) + [SLASH];
      var buf := ec.Get(parent);
      ec.Put(parent, buf + ent);
    }

    method NewEmpty(t: U32) returns (ino: nat)
      requires ec.Valid() && 0 < t < 65536 && InumLeft(ec.Held())
      modifies ec, ec.im.bm.disk.blocks
      ensures ec.Valid() && IsLeastFree(old(ec.Held()), ino) && ec.Held() == old(ec.Held())[ino := File(t, [])]
    {
      assert Short(t) == t;
      ino := ec.Create(t);
    }

    /** Makes an empty file of type t, with an entry in its parent. */
    method MakeNode(ghost p: nat, parent: nat, name: Text, t: U32) returns (ino: nat)
      requires ec.Valid() && p == Masked(parent) && 0 < t < 65536 && EntryFits(ec.Held(), p, name, File(t, []))
      modifies ec, ec.im.bm.disk.blocks
      ensures ec.Valid() && IsLeastFree(old(ec.Held()), ino)
      ensures ec.Held() == WithEntry(old(ec.Held()), p, Entry(name, ino), File(t, []))
    {
      ghost var m := ec.Held();
      ino := NewEmpty(t);
      EntryFitsFor(m, p, name, File(t, []), ino);
      Enter(p, parent, name, ino);
    }

    /** Makes a regular file.  A name that is there is not made again. */
    method Create(ghost dirs: map<nat, seq<Entry>>, ghost p: nat, parent: nat, name: Text)
      returns (r: Status, ino: nat)
      requires ec.Valid() && DirInv(ec.Held(), dirs) && p == Masked(parent) && p in ec.Held() && SlashFree(name)
      requires !HasName(dirs, p, name) ==> EntryFits(ec.Held(), p, name, File(T_FILE, []))
      modifies ec, ec.im.bm.disk.blocks
      ensures ec.Valid()
      ensures HasName(dirs, p, name) ==> r == EXIST && ec.Held() == old(ec.Held())
      ensures !HasName(dirs, p, name) ==>
        r == OK && Makes(old(ec.Held()), ec.Held(), dirs, p, Entry(name, ino), File(T_FILE, []))
    {
      ghost var m := ec.Held();
      ec.HeldFits();
      var found;
      ghost var t;
      r, found, ino, t := Lookup(dirs, p, parent, name);
      if found {
        return;
      }
      ino := MakeNode(p, parent, name, T_FILE);
      MadeIs(m, ec.Held(), dirs, p, Entry(name, ino), File(T_FILE, []));
    }

    /** Makes an empty directory. */
    method MakeDir(ghost dirs: map<nat, seq<Entry>>, ghost p: nat, parent: nat, name: Text)
      returns (r: Status, ino: nat)
      requires ec.Valid() && DirInv(ec.Held(), dirs) && p == Masked(parent) && p in ec.Held() && SlashFree(name)
      requires !HasName(dirs, p, name) ==> EntryFits(ec.Held(), p, name, File(T_DIR, []))
      modifies ec, ec.im.bm.disk.blocks
      ensures ec.Valid()
      ensures HasName(dirs, p, name) ==> r == EXIST && ec.Held() == old(ec.Held())
      ensures !HasName(dirs, p, name) ==>
        r == OK && Makes(old(ec.Held()), ec.Held(), dirs, p, Entry(name, ino), File(T_DIR, []))
    {
      ghost var m := ec.Held();
      ec.HeldFits();
      var found;
      ghost var t;
      r, found, ino, t := Lookup(dirs, p, parent, name);
      if found {
        return;
      }
      ino := MakeNode(p, parent, name, T_DIR);
      MadeIs(m, ec.Held(), dirs, p, Entry(name, ino), File(T_DIR, []));
    }

    /** Makes a file of type t and this content. */
    method NewFilled(t: U32, data: Text) returns (ino: nat)
      requires ec.Valid() && 0 < t < 65536 && InumLeft(ec.Held())
      requires forall i: nat | IsLeastFree(ec.Held(), i) :: Fits(ec.Held(), i, |data|)
      modifies ec, ec.im.bm.disk.blocks
      ensures ec.Valid() && IsLeastFree(old(ec.Held()), ino) && ec.Held() == old(ec.Held())[ino := File(t, data)]
    {
      ghost var m := ec.Held();
      ino := NewEmpty(t);
      CreatedFits(m, ino, t, |data|);
      MaskedSmall(ino);
      ec.Put(ino, data);
    }

    /** Makes a file of type t and this content, with an entry in its parent. */
    method MakeFilled(ghost p: nat, parent: nat, name: Text, t: U32, data: Text) returns (ino: nat)
      requires ec.Valid() && p == Masked(parent) && 0 < t < 65536 && EntryFits(ec.Held(), p, name, File(t, data))
      modifies ec, ec.im.bm.disk.blocks
      ensures ec.Valid() && IsLeastFree(old(ec.Held()), ino)
      ensures ec.Held() == WithEntry(old(ec.Held()), p, Entry(name, ino), File(t, data))
    {
      ghost var m := ec.Held();
      EntryFitsAll(m, p, name, File(t, data));
      ino := NewFilled(t, data);
      EntryFitsFor(m, p, name, File(t, data), ino);
      Enter(p, parent, name, ino);
    }

    /** Makes a symbolic link, a file that holds the path it stands for. */
    method Symlink(ghost dirs: map<nat, seq<Entry>>, ghost p: nat, parent: nat, name: Text, link: Text)
      returns (r: Status, ino: nat)
      requires ec.Valid() && DirInv(ec.Held(), dirs) && p == Masked(parent) && p in ec.Held() && SlashFree(name)
      requires !HasName(dirs, p, name) ==> EntryFits(ec.Held(), p, name, File(T_SYMLINK, link))
      modifies ec, ec.im.bm.disk.blocks
      ensures ec.Valid()
      ensures HasName(dirs, p, name) ==> r == EXIST && ec.Held() == old(ec.Held())
      ensures !HasName(dirs, p, name) ==>
        r == OK && Makes(old(ec.Held()), ec.Held(), dirs, p, Entry(name, ino), File(T_SYMLINK, link))
    {
      ghost var m := ec.Held();
      ec.HeldFits();
      var found;
      ghost var t;
      r, found, ino, t := Lookup(dirs, p, parent, name);
      if found {
        return EXIST, ino;
      }
      ino := MakeFilled(p, parent, name, T_SYMLINK, link);
      MadeIs(m, ec.Held(), dirs, p, Entry(name, ino), File(T_SYMLINK, link));
    }

    /** Takes a name out of its directory and removes its inode.  The entry's text is deleted where it
        is first found, which is right exactly when the entry is not hidden. */
    method Unlink(ghost dirs: map<nat, seq<Entry>>, ghost p: nat, parent: nat, name: Text)
      returns (r: Status, ghost t: nat, ghost q: nat)
      requires ec.Valid() && DirInv(ec.Held(), dirs) && p == Masked(parent) != INODE_NUM - 1
      modifies ec, ec.im.bm.disk.blocks
      ensures ec.Valid()
      ensures !HasName(dirs, p, name) ==> r == NOENT && ec.Held() == old(ec.Held())
      ensures HasName(dirs, p, name) ==>
        r == OK && Unlinks(old(ec.Held()), ec.Held(), dirs, p, t, q) && dirs[p][t].name == name
    {
      ghost var m := ec.Held();
      q := 0;
      var found, toremove;
      r, found, toremove, t := Lookup(dirs, p, parent, name);
      if !found {
        r := NOENT;
        return;
      }
      q := RemoveEntry(dirs, p, parent, Entry(name, toremove), t);
      UnlinkedIs(m, ec.Held(), dirs, p, t, q);
      r := OK;
    }

    method RemoveEntry(ghost dirs: map<nat, seq<Entry>>, ghost p: nat, parent: nat, e: Entry, ghost t: nat)
      returns (ghost q: nat)
      requires ec.Valid() && DirInv(ec.Held(), dirs) && p == Masked(parent) && At(dirs, p, t) && dirs[p][t] == e
      modifies ec, ec.im.bm.disk.blocks
      ensures ec.Valid() && IsFirst(Encode(dirs[p]), EntryText(e), q)
      ensures ec.Held() == (old(ec.Held()) - {e.inum})
                           [p := File(T_DIR, Deleted(Encode(dirs[p]), q, |EntryText(e)|))]
    {
      ghost var m := ec.Held();
      ec.HeldFits();
      assert e.inum in m && e.inum != p && m[p].data == Encode(dirs[p]);
      MaskedSmall(e.inum);
      ec.Remove(e.inum);
      var buf := ec.Get(parent);
      buf, q := DeleteEntry(dirs[p], t, buf, e);
      ShorterFits(m, e.inum, p, |buf|);
      ec.Put(parent, buf);
    }

    // ---- parts of files ------------------------------------------------------------------

    method Read(ghost p: nat, ino: nat, size: nat, off: nat) returns (data: Text)
      requires ec.Valid() && p == Masked(ino) != INODE_NUM - 1
      modifies ec, ec.im.bm.disk.blocks
      ensures ec.Valid() && ec.Held() == old(ec.Held())
      ensures data == ReadAt(if p in ec.Held() then ec.Held()[p].data else [], off, size)
    {
      var buf := ec.Get(ino);
      if |buf| <= off {
        data := [];
      } else {
        data := if off + size <= |buf| then buf[off..off + size] else buf[off..];
      }
    }

    /** Writes a file that exists.  Without room for it the disk is not sound any more. */
    method Write(ghost dirs: map<nat, seq<Entry>>, ghost p: nat, ino: nat, off: nat, towrite: Text)
      returns (bytesWritten: nat)
      requires ec.Valid() && p == Masked(ino) && p in ec.Held()
      requires |WrittenAt(ec.Held()[p].data, off, towrite)| <= MAX_SIZE
      modifies ec, ec.im.bm.disk.blocks
      ensures bytesWritten == |towrite|
      ensures var m := old(ec.Held());
              var data := WrittenAt(m[p].data, off, towrite);
              && (Fits(m, p, |data|) ==> ec.Valid() && Changes(m, ec.Held(), dirs, p, data))
              && (!Fits(m, p, |data|) ==> ec.im.Valid() && !FsInv(ec.im.State()))
    {
      ghost var m := ec.Held();
      ec.HeldFits();
      var buf := ec.Get(ino);
      ec.Put(ino, Patched(buf, off, towrite));
      bytesWritten := |towrite|;
      if Fits(m, p, |WrittenAt(m[p].data, off, towrite)|) {
        ChangedIs(m, ec.Held(), dirs, p, WrittenAt(m[p].data, off, towrite));
      }
    }

    method SetAttr(ghost dirs: map<nat, seq<Entry>>, ghost p: nat, ino: nat, size: nat)
      requires ec.Valid() && p == Masked(ino) && p in ec.Held() && size <= MAX_SIZE
      modifies ec, ec.im.bm.disk.blocks
      ensures var m := old(ec.Held());
              && (Fits(m, p, size) ==> ec.Valid() && Changes(m, ec.Held(), dirs, p, Resized(m[p].data, size)))
              && (!Fits(m, p, size) ==> ec.im.Valid() && !FsInv(ec.im.State()))
    {
      ghost var m := ec.Held();
      ec.HeldFits();
      var buf := ec.Get(ino);
      ec.Put(ino, Resized(buf, size));
      if Fits(m, p, size) {
        ChangedIs(m, ec.Held(), dirs, p, Resized(m[p].data, size));
      }
    }
  }

  /** The loop of lookup, on a directory's text. */
  method SearchText(ghost es: seq<Entry>, buf: Text, name: Text) returns (found: bool, ino: nat, ghost t: nat)
    requires NamesSlashFree(es) && buf == Encode(es)
    ensures found <==> NameIn(es, name)
    ensures found ==> IsFound(es, name, t) && t < |es| && ino == es[t].inum
  {
    EntriesOfEncode(es);
    var ents := ReadDir(buf);
    var k := Search(ents, name);
    found, t := k < |ents|, k;
    ino := if found then ents[k].inum else 0;
  }

  /** std::string::find for a text that occurs. */
  method FindText(s: Text, pat: Text) returns (p: nat)
    requires exists q: nat :: OccursAt(s, pat, q)
    ensures IsFirst(s, pat, p)
  {
    p := 0;
    ghost var q: nat :| OccursAt(s, pat, q);
    while !(p + |pat| <= |s| && s[p..p + |pat|] == pat)
      invariant p <= q && forall r: nat | r < p :: !OccursAt(s, pat, r)
      decreases q - p
    {
      p := p + 1;
    }
  }

  /** Deletion of an entry from a directory's text. */
  method DeleteEntry(ghost es: seq<Entry>, ghost t: nat, buf: Text, e: Entry) returns (buf': Text, ghost q: nat)
    requires t < |es| && es[t] == e && buf == Encode(es)
    ensures |buf'| <= |buf| && IsFirst(buf, EntryText(e), q) && buf' == Deleted(buf, q, |EntryText(e)|)
  {
    var ent := EntryText(e);
    EntryFound(es, t);
    ghost var r: nat :| IsFirst(Encode(es), EntryText(es[t]), r);
    assert OccursAt(buf, ent, r);
    var p := FindText(buf, ent);
    q := p;
    buf' := Deleted(buf, p, |ent|);
  }
}
