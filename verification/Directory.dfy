/** Directory contents (yfs_client.cc): entries written as name, slash, inode number, slash. */
module Directory {
  import opened Bits

  type Text = seq<U8>

  const SLASH: nat := 47
  const DIGIT_0: nat := 48

  datatype Entry = Entry(name: Text, inum: nat)

  // ---- numbers -------------------------------------------------------------------------

  predicate IsDigit(c: U8)
  {
    DIGIT_0 <= c < DIGIT_0 + 10
  }

  predicate AllDigits(s: Text)
  {
    forall k | 0 <= k < |s| :: IsDigit(s[k])
  }

  /** The decimal digits of n. */
  function Dec(n: nat): (s: Text)
    ensures |s| > 0 && AllDigits(s)
  {
    if n < 10 then [DIGIT_0 + n] else Dec(n / 10) + [DIGIT_0 + n % 10]
  }

  function Value(s: Text): nat
    requires AllDigits(s)
  {
    if s == [] then 0 else 10 * Value(s[..|s| - 1]) + (s[|s| - 1] - DIGIT_0)
  }

  function LeadingDigits(s: Text): (d: Text)
    ensures AllDigits(d) && |d| <= |s| && d == s[..|d|] && (|d| < |s| ==> !IsDigit(s[|d|]))
  {
    if s == [] || !IsDigit(s[0]) then [] else [s[0]] + LeadingDigits(s[1..])
  }

  /** The number a text starts with. */
  function ToInum(s: Text): nat
  {
    Value(LeadingDigits(s))
  }

  lemma {:induction false} LeadingAll(s: Text)
    requires AllDigits(s)
    ensures LeadingDigits(s) == s
  {
    if s != [] { LeadingAll(s[1..]); }
  }

  lemma {:induction false} ValueOfDec(n: nat)
    ensures Value(Dec(n)) == n
  {
    if n >= 10 { ValueOfDec(n / 10); }
  }

  lemma {:induction false} LeadingStops(d: Text, rest: Text)
    requires AllDigits(d) && (rest != [] ==> !IsDigit(rest[0]))
    ensures LeadingDigits(d + rest) == d
  {
    if d == [] {
      assert d + rest == rest;
    } else {
      assert (d + rest)[1..] == d[1..] + rest;
      LeadingStops(d[1..], rest);
    }
  }

  /** Reading a number stops at the first character that is no digit. */
  lemma ToInumStops(n: nat, rest: Text)
    requires rest != [] ==> !IsDigit(rest[0])
    ensures ToInum(Dec(n) + rest) == n
  {
    LeadingStops(Dec(n), rest);
    ValueOfDec(n);
  }

  /** Printing an inode number and reading it back are inverse. */
  lemma DecRound(n: nat)
    ensures ToInum(Dec(n)) == n
  {
    LeadingAll(Dec(n));
    ValueOfDec(n);
  }

  // ---- fields --------------------------------------------------------------------------

  predicate SlashFree(s: Text)
  {
    forall k | 0 <= k < |s| :: s[k] != SLASH
  }

  predicate AllSlashFree(fs: seq<Text>)
  {
    forall k | 0 <= k < |fs| :: SlashFree(fs[k])
  }

  /** Each field followed by a slash. */
  function Join(fs: seq<Text>): Text
  {
    if fs == [] then [] else fs[0] + [SLASH] + Join(fs[1..])
  }

  lemma {:induction false} JoinSplit(fs: seq<Text>, gs: seq<Text>)
    ensures Join(fs + gs) == Join(fs) + Join(gs)
  {
    if fs == [] {
      assert fs + gs == gs;
    } else {
      JoinSplit(fs[1..], gs);
      assert (fs + gs)[1..] == fs[1..] + gs;
    }
  }

  /** Position of the first slash, or the length where there is none. */
  function FindSlash(s: Text): (p: nat)
    ensures p <= |s| && (forall k | 0 <= k < p :: s[k] != SLASH) && (p < |s| ==> s[p] == SLASH)
  {
    if s == [] || s[0] == SLASH then 0 else FindSlash(s[1..]) + 1
  }

  lemma FindSlashIs(f: Text, rest: Text)
    requires SlashFree(f)
    ensures FindSlash(f + [SLASH] + rest) == |f|
  {
    var s := f + [SLASH] + rest;
    assert s[|f|] == SLASH && forall k | 0 <= k < |f| :: s[k] == f[k];
  }

  /** The text before the first slash. */
  function Head(s: Text): Text
  {
    s[..FindSlash(s)]
  }

  /** The text after the first slash; without one, the position past "not found" wraps to 0. */
  function Tail(s: Text): Text
  {
    if FindSlash(s) < |s| then s[FindSlash(s) + 1..] else s
  }

  lemma HeadTail(f: Text, rest: Text)
    requires SlashFree(f)
    ensures Head(f + [SLASH] + rest) == f && Tail(f + [SLASH] + rest) == rest
  {
    FindSlashIs(f, rest);
  }

  /** Fields are determined by the joined text. */
  lemma {:induction false} JoinInjective(fs: seq<Text>, gs: seq<Text>)
    requires AllSlashFree(fs) && AllSlashFree(gs) && Join(fs) == Join(gs)
    ensures fs == gs
  {
    if fs != [] && gs != [] {
      HeadTail(fs[0], Join(fs[1..]));
      HeadTail(gs[0], Join(gs[1..]));
      JoinInjective(fs[1..], gs[1..]);
      assert fs == [fs[0]] + fs[1..] && gs == [gs[0]] + gs[1..];
    }
  }

  // ---- entries -------------------------------------------------------------------------

  function FieldsOf(es: seq<Entry>): (fs: seq<Text>)
    ensures |fs| == 2 * |es|
  {
    if es == [] then [] else [es[0].name, Dec(es[0].inum)] + FieldsOf(es[1..])
  }

  lemma {:induction false} FieldAt(es: seq<Entry>, j: nat)
    requires j < 2 * |es|
    ensures FieldsOf(es)[j] == if j % 2 == 0 then es[j / 2].name else Dec(es[j / 2].inum)
  {
    if j >= 2 { FieldAt(es[1..], j - 2); }
  }

  predicate NamesSlashFree(es: seq<Entry>)
  {
    forall k | 0 <= k < |es| :: SlashFree(es[k].name)
  }

  /** The content of a directory with these entries. */
  function Encode(es: seq<Entry>): Text
  {
    Join(FieldsOf(es))
  }

  lemma AssociativeFields(a: seq<Text>, b: seq<Text>, c: seq<Text>)
    ensures a + (b + c) == a + b + c
  {
  }

  lemma FieldsCons(e: Entry, es: seq<Entry>)
    ensures FieldsOf([e] + es) == [e.name, Dec(e.inum)] + FieldsOf(es)
  {
    assert ([e] + es)[1..] == es;
  }

  lemma {:induction false} FieldsOfSplit(es: seq<Entry>, more: seq<Entry>)
    ensures FieldsOf(es + more) == FieldsOf(es) + FieldsOf(more)
  {
    if es == [] {
      assert es + more == more;
    } else {
      FieldsOfSplit(es[1..], more);
      assert es + more == [es[0]] + (es[1..] + more);
      FieldsCons(es[0], es[1..] + more);
      AssociativeFields([es[0].name, Dec(es[0].inum)], FieldsOf(es[1..]), FieldsOf(more));
    }
  }

  lemma FieldsSlashFree(es: seq<Entry>)
    requires NamesSlashFree(es)
    ensures AllSlashFree(FieldsOf(es))
  {
    forall j | 0 <= j < 2 * |es| ensures SlashFree(FieldsOf(es)[j]) {
      FieldAt(es, j);
    }
  }

  /** The text that an operation appends to, or deletes from, a directory. */
  function EntryText(e: Entry): Text
  {
    e.name + [SLASH] + Dec(e.inum) + [SLASH]
  }

  /** Appending an entry's text appends the entry. */
  lemma EncodeAppend(es: seq<Entry>, e: Entry)
    ensures Encode(es) + EntryText(e) == Encode(es + [e])
  {
    FieldsOfSplit(es, [e]);
    JoinSplit(FieldsOf(es), FieldsOf([e]));
    assert FieldsOf([e]) == [e.name, Dec(e.inum)] + FieldsOf([]);
    assert Join(FieldsOf([e])) == e.name + [SLASH] + (Dec(e.inum) + [SLASH] + Join(FieldsOf([])));
    assert Join(FieldsOf([e])) == EntryText(e);
  }

  // ---- reading a directory -------------------------------------------------------------

  /** One round of readdir's loop: the entry it pushes and the text it goes on with. */
  function PushedEntry(buf: Text): Entry
  {
    Entry(Head(buf), ToInum(Head(Tail(buf))))
  }

  function RestText(buf: Text): (r: Text)
    ensures |r| <= |buf|
  {
    Tail(Tail(buf))
  }

  /** A text in which every field is followed by a slash. */
  predicate Clean(buf: Text)
  {
    buf == [] || buf[|buf| - 1] == SLASH
  }

  lemma TailClean(buf: Text)
    requires buf != []
    ensures Clean(buf) ==> Clean(Tail(buf)) && |Tail(buf)| < |buf|
    ensures !Clean(buf) ==> !Clean(Tail(buf))
  {
  }

  lemma RestClean(buf: Text)
    requires buf != []
    ensures Clean(buf) ==> Clean(RestText(buf)) && |RestText(buf)| < |buf|
    ensures !Clean(buf) ==> !Clean(RestText(buf))
  {
    TailClean(buf);
    if Tail(buf) != [] { TailClean(Tail(buf)); }
  }

  /** The fields of a clean text. */
  function Split(buf: Text): (fs: seq<Text>)
    requires Clean(buf)
    decreases |buf|
  {
    if buf == [] then []
    else
      TailClean(buf);
      [Head(buf)] + Split(Tail(buf))
  }

  lemma FirstField(buf: Text)
    requires Clean(buf) && buf != []
    ensures SlashFree(Head(buf)) && buf == Head(buf) + [SLASH] + Tail(buf)
    ensures Clean(Tail(buf)) && |Tail(buf)| < |buf|
  {
  }

  lemma JoinCons(f: Text, fs: seq<Text>)
    ensures Join([f] + fs) == f + [SLASH] + Join(fs)
    ensures SlashFree(f) && AllSlashFree(fs) ==> AllSlashFree([f] + fs)
  {
    assert ([f] + fs)[1..] == fs;
  }

  lemma {:induction false} SplitJoins(buf: Text)
    requires Clean(buf)
    ensures AllSlashFree(Split(buf)) && Join(Split(buf)) == buf
    decreases |buf|
  {
    if buf != [] {
      FirstField(buf);
      SplitJoins(Tail(buf));
      JoinCons(Head(buf), Split(Tail(buf)));
    }
  }

  lemma {:induction false} JoinClean(fs: seq<Text>)
    ensures Clean(Join(fs))
  {
    if fs != [] { JoinClean(fs[1..]); }
  }

  /** Fields two by two.  A field without a partner is read with inode number 0. */
  function Pairs(fs: seq<Text>): seq<Entry>
  {
    if fs == [] then []
    else if |fs| == 1 then [Entry(fs[0], 0)]
    else [Entry(fs[0], ToInum(fs[1]))] + Pairs(fs[2..])
  }

  /** The entries that readdir lists. */
  function Entries(buf: Text): seq<Entry>
    requires Clean(buf)
  {
    Pairs(Split(buf))
  }

  function Drop2(fs: seq<Text>): seq<Text>
  {
    if |fs| <= 2 then [] else fs[2..]
  }

  lemma JoinTwo(fs: seq<Text>)
    requires |fs| >= 2
    ensures Join(fs) == fs[0] + [SLASH] + (fs[1] + [SLASH] + Join(fs[2..]))
  {
    var gs := fs[1..];
    assert gs[0] == fs[1] && gs[1..] == fs[2..];
    assert Join(gs) == gs[0] + [SLASH] + Join(gs[1..]);
  }

  /** One round, on fields. */
  lemma RoundOnFields(fs: seq<Text>)
    requires fs != [] && AllSlashFree(fs)
    ensures Join(fs) != [] && RestText(Join(fs)) == Join(Drop2(fs))
    ensures Pairs(fs) == [PushedEntry(Join(fs))] + Pairs(Drop2(fs))
  {
    if |fs| == 1 {
      assert Join(fs) == fs[0] + [SLASH] + [];
      HeadTail(fs[0], []);
    } else {
      JoinTwo(fs);
      HeadTail(fs[0], fs[1] + [SLASH] + Join(fs[2..]));
      HeadTail(fs[1], Join(fs[2..]));
      assert Drop2(fs) == fs[2..];
    }
  }

  predicate Round(buf: Text, buf': Text)
  {
    buf != [] && buf' == RestText(buf)
  }

  /** The texts that the rounds of readdir's loop work on. */
  predicate Rounds(bufs: seq<Text>)
  {
    |bufs| > 0 && forall j, k | 0 <= j < |bufs| && k == j + 1 < |bufs| :: Round(bufs[j], bufs[k])
  }

  lemma {:induction false} RoundsClean(bufs: seq<Text>, k: nat)
    requires Rounds(bufs) && k < |bufs| && Clean(bufs[k])
    ensures Clean(bufs[0])
  {
    if k > 0 {
      assert Round(bufs[k - 1], bufs[k]);
      RestClean(bufs[k - 1]);
      RoundsClean(bufs, k - 1);
    }
  }

  lemma {:induction false} FieldsEnd(fs: seq<Text>) returns (bufs: seq<Text>)
    requires AllSlashFree(fs)
    ensures Rounds(bufs) && bufs[0] == Join(fs) && bufs[|bufs| - 1] == []
  {
    if fs == [] {
      bufs := [[]];
    } else {
      RoundOnFields(fs);
      var rest := FieldsEnd(Drop2(fs));
      bufs := [Join(fs)] + rest;
      RoundsCons(Join(fs), rest);
    }
  }

  lemma RoundsCons(buf: Text, bufs: seq<Text>)
    requires Rounds(bufs) && buf != [] && bufs[0] == RestText(buf)
    ensures Rounds([buf] + bufs)
  {
    var all := [buf] + bufs;
    forall j, k | 0 <= j < |all| && k == j + 1 < |all| ensures Round(all[j], all[k]) {
      if j > 0 { assert Round(bufs[j - 1], bufs[k - 1]); }
    }
  }

  ghost predicate LoopEnds(buf: Text)
  {
    exists bufs: seq<Text> :: Rounds(bufs) && bufs[0] == buf && bufs[|bufs| - 1] == []
  }

  /** readdir's loop ends exactly when the text is empty or its last byte is a slash. */
  lemma ReaddirEnds(buf: Text)
    ensures LoopEnds(buf) <==> Clean(buf)
  {
    if Clean(buf) {
      SplitJoins(buf);
      var bufs := FieldsEnd(Split(buf));
    }
    if LoopEnds(buf) {
      var bufs: seq<Text> :| Rounds(bufs) && bufs[0] == buf && bufs[|bufs| - 1] == [];
      RoundsClean(bufs, |bufs| - 1);
    }
  }

  lemma {:induction false} PairsOfFields(es: seq<Entry>)
    ensures Pairs(FieldsOf(es)) == es
  {
    if es != [] {
      PairsOfFields(es[1..]);
      assert FieldsOf(es)[2..] == FieldsOf(es[1..]);
      DecRound(es[0].inum);
      assert es == [es[0]] + es[1..];
    }
  }

  /** readdir parses back exactly the entries that were written. */
  lemma EntriesOfEncode(es: seq<Entry>)
    requires NamesSlashFree(es)
    ensures Clean(Encode(es)) && Entries(Encode(es)) == es
  {
    var fs := FieldsOf(es);
    JoinClean(fs);
    FieldsSlashFree(es);
    SplitJoins(Join(fs));
    JoinInjective(Split(Join(fs)), fs);
    PairsOfFields(es);
  }

  /** The text up to the first slash, and the text after it. */
  method NextField(buf: Text) returns (field: Text, rest: Text)
    ensures field == Head(buf) && rest == Tail(buf)
  {
    var pos := FindSlash(buf);
    field := buf[..pos];
    rest := if pos < |buf| then buf[pos + 1..] else buf;
  }

  /** The body of readdir's loop. */
  method NextEntry(buf: Text) returns (e: Entry, rest: Text)
    ensures e == PushedEntry(buf) && rest == RestText(buf)
  {
    var name, inum;
    name, rest := NextField(buf);
    inum, rest := NextField(rest);
    e := Entry(name, ToInum(inum));
  }

  method ReadDir(buf0: Text) returns (list: seq<Entry>)
    requires Clean(buf0)
    ensures list == Entries(buf0)
  {
    var buf := buf0;
    list := [];
    ghost var fs := Split(buf0);
    SplitJoins(buf0);
    while buf != []
      invariant buf == Join(fs) && AllSlashFree(fs) && list + Pairs(fs) == Entries(buf0)
      decreases |fs|
    {
      RoundOnFields(fs);
      var e, rest := NextEntry(buf);
      Associative(list, e, Pairs(Drop2(fs)));
      list, buf, fs := list + [e], rest, Drop2(fs);
    }
    JoinEmpty(fs);
  }

  lemma Associative(a: seq<Entry>, e: Entry, b: seq<Entry>)
    ensures a + ([e] + b) == a + [e] + b
  {
  }

  lemma JoinEmpty(fs: seq<Text>)
    requires Join(fs) == []
    ensures fs == []
  {
  }

  // ---- looking up a name ---------------------------------------------------------------

  /** t is the first entry with this name; the number of entries when there is none. */
  predicate IsFound(es: seq<Entry>, name: Text, t: nat)
  {
    t <= |es| && (forall k | 0 <= k < t :: es[k].name != name) && (t < |es| ==> es[t].name == name)
  }

  method Search(es: seq<Entry>, name: Text) returns (t: nat)
    ensures IsFound(es, name, t)
  {
    t := 0;
    while t < |es|
      invariant 0 <= t <= |es| && forall k | 0 <= k < t :: es[k].name != name
    {
      if es[t].name == name {
        return;
      }
      t := t + 1;
    }
  }
}
