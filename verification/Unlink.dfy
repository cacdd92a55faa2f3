/** Deletion from a directory by searching its text (_unlink of yfs_client.cc). */
module Unlink {
  import opened Directory

  predicate OccursAt(s: Text, pat: Text, p: nat)
  {
    p + |pat| <= |s| && s[p..p + |pat|] == pat
  }

  /** The position that std::string::find returns for a text that occurs. */
  predicate IsFirst(s: Text, pat: Text, p: nat)
  {
    OccursAt(s, pat, p) && forall q: nat | q < p :: !OccursAt(s, pat, q)
  }

  function Deleted(s: Text, p: nat, n: nat): Text
    requires p + n <= |s|
  {
    s[..p] + s[p + n..]
  }

  /** Two fields as they stand in a text. */
  function TwoFields(x: Text, y: Text): Text
  {
    x + [SLASH] + y + [SLASH]
  }

  predicate SuffixOf(x: Text, f: Text)
  {
    |x| <= |f| && f[|f| - |x|..] == x
  }

  /** Field m ends in x and the next field is y. */
  predicate MatchesAt(fs: seq<Text>, x: Text, y: Text, m: nat)
  {
    m + 1 < |fs| && SuffixOf(x, fs[m]) && fs[m + 1] == y
  }

  /** What comes before a match at field m, and after it. */
  function Ahead(fs: seq<Text>, x: Text, m: nat): Text
    requires m < |fs| && |x| <= |fs[m]|
  {
    Join(fs[..m]) + fs[m][..|fs[m]| - |x|]
  }

  // ---- occurrences are matches of fields -------------------------------------------------

  lemma MatchOccurs(fs: seq<Text>, x: Text, y: Text, m: nat)
    requires MatchesAt(fs, x, y, m)
    ensures Join(fs) == Ahead(fs, x, m) + TwoFields(x, y) + Join(fs[m + 2..])
  {
    var gs := fs[m..];
    assert fs == fs[..m] + gs;
    JoinSplit(fs[..m], gs);
    JoinTwo(gs);
    assert gs[2..] == fs[m + 2..];
    var f := fs[m];
    assert f == f[..|f| - |x|] + x;
    Regroup(Join(fs[..m]), f[..|f| - |x|], x, y, Join(fs[m + 2..]));
  }

  lemma Regroup(a: Text, b: Text, x: Text, y: Text, c: Text)
    ensures a + (b + x + [SLASH] + (y + [SLASH] + c)) == a + b + TwoFields(x, y) + c
  {
  }

  lemma OccursIs(a: Text, pat: Text, b: Text)
    ensures OccursAt(a + pat + b, pat, |a|) && Deleted(a + pat + b, |a|, |pat|) == a + b
  {
  }

  /** A text that starts with a field and a slash has it as its first field. */
  lemma StartsWithField(fs: seq<Text>, y: Text, rest: Text)
    requires AllSlashFree(fs) && SlashFree(y) && Join(fs) == y + [SLASH] + rest
    ensures fs != [] && fs[0] == y && Join(fs[1..]) == rest
  {
    HeadTail(y, rest);
    HeadTail(fs[0], Join(fs[1..]));
  }

  /** The first slash at or after a position in the first field ends that field. */
  lemma FieldEnd(f: Text, rest: Text, x: Text, tail: Text, p: nat)
    requires SlashFree(f) && SlashFree(x) && p <= |f|
    requires (f + [SLASH] + rest)[p..] == x + [SLASH] + tail
    ensures f[p..] == x && rest == tail
  {
    assert (f + [SLASH] + rest)[p..] == f[p..] + [SLASH] + rest;
    HeadTail(f[p..], rest);
    HeadTail(x, tail);
  }

  lemma OccursTail(s: Text, x: Text, y: Text, p: nat)
    requires OccursAt(s, TwoFields(x, y), p)
    ensures s[p..] == x + [SLASH] + (y + [SLASH] + s[p + |TwoFields(x, y)|..])
  {
    var pat := TwoFields(x, y);
    assert s[p..] == s[p..p + |pat|] + s[p + |pat|..];
    Regroup([], [], x, y, s[p + |pat|..]);
  }

  /** An occurrence of two fields lies at a match. */
  lemma {:induction false} OccurrenceMatches(fs: seq<Text>, x: Text, y: Text, p: nat) returns (m: nat)
    requires AllSlashFree(fs) && SlashFree(x) && SlashFree(y) && OccursAt(Join(fs), TwoFields(x, y), p)
    ensures MatchesAt(fs, x, y, m) && p == |Ahead(fs, x, m)|
  {
    assert fs != [];
    var f, gs := fs[0], fs[1..];
    var s := Join(fs);
    assert s == f + [SLASH] + Join(gs);
    OccursTail(s, x, y, p);
    var rest := s[p + |TwoFields(x, y)|..];
    if p <= |f| {
      m := 0;
      FieldEnd(f, Join(gs), x, y + [SLASH] + rest, p);
      StartsWithField(gs, y, rest);
      assert Join(fs[..0]) == [];
    } else {
      var q := p - |f| - 1;
      assert s[p..] == Join(gs)[q..];
      OccursLater(Join(gs), x, y, q, rest);
      var k := OccurrenceMatches(gs, x, y, q);
      m := k + 1;
      assert gs[k] == fs[m] && gs[k + 1] == fs[m + 1];
      assert fs[..m] == [f] + gs[..k];
      JoinCons(f, gs[..k]);
    }
  }

  lemma OccursLater(s: Text, x: Text, y: Text, q: nat, rest: Text)
    requires q <= |s| && s[q..] == x + [SLASH] + (y + [SLASH] + rest)
    ensures OccursAt(s, TwoFields(x, y), q)
  {
    Regroup([], [], x, y, rest);
    var pat := TwoFields(x, y);
    assert s[q..] == pat + rest;
    assert s[q..q + |pat|] == s[q..][..|pat|];
  }

  /** Later matches lie further on. */
  lemma MatchesInOrder(fs: seq<Text>, x: Text, m: nat, m': nat)
    requires m < m' < |fs| && |x| <= |fs[m]| && |x| <= |fs[m']|
    ensures |Ahead(fs, x, m)| < |Ahead(fs, x, m')|
  {
    var a, b := fs[..m + 1], fs[m + 1..m'];
    assert fs[..m'] == a + b;
    JoinSplit(a, b);
    assert a == fs[..m] + [fs[m]];
    JoinSplit(fs[..m], [fs[m]]);
    assert Join([fs[m]]) == fs[m] + [SLASH] + Join([]);
  }

  // ---- names and numbers in turn ---------------------------------------------------------

  /** Fields are names and numbers in turn. */
  predicate InTurn(fs: seq<Text>, names: seq<Text>, nums: seq<Text>)
  {
    && |nums| == |names| && |fs| == 2 * |names|
    && (forall k | 0 <= k < |names| :: fs[2 * k] == names[k])
    && (forall k | 0 <= k < |nums| :: fs[2 * k + 1] == nums[k])
  }

  predicate AllDifferent(s: seq<Text>)
  {
    forall j, k | 0 <= j < k < |s| :: s[j] != s[k]
  }

  /** The fields of entry t occur as the end of number k and the name after it. */
  predicate HiddenBy(names: seq<Text>, nums: seq<Text>, t: nat, k: nat)
    requires |nums| == |names| && t < |names| && k + 1 < |names|
  {
    SuffixOf(names[t], nums[k]) && names[k + 1] == nums[t]
  }

  /** They do so ahead of the entry just before entry t. */
  predicate Hidden(names: seq<Text>, nums: seq<Text>, t: nat)
    requires |nums| == |names| && t < |names|
  {
    exists k :: 0 <= k < t - 1 && HiddenBy(names, nums, t, k)
  }

  lemma FieldIs(fs: seq<Text>, names: seq<Text>, nums: seq<Text>, m: nat)
    requires InTurn(fs, names, nums) && m < |fs|
    ensures fs[m] == if m % 2 == 0 then names[m / 2] else nums[m / 2]
  {
    assert m == 2 * (m / 2) || m == 2 * (m / 2) + 1;
  }

  /** Matches of entry t's fields: the entry itself, or a number followed by a name. */
  lemma MatchKinds(fs: seq<Text>, names: seq<Text>, nums: seq<Text>, t: nat, m: nat)
    requires InTurn(fs, names, nums) && AllDifferent(nums) && t < |names| && MatchesAt(fs, names[t], nums[t], m)
    ensures m == 2 * t || (m % 2 == 1 && m / 2 + 1 < |names| && HiddenBy(names, nums, t, m / 2))
  {
    FieldIs(fs, names, nums, m);
    FieldIs(fs, names, nums, m + 1);
    if m % 2 == 0 {
      assert nums[m / 2] == nums[t];
    }
  }

  lemma OwnMatch(fs: seq<Text>, names: seq<Text>, nums: seq<Text>, t: nat)
    requires InTurn(fs, names, nums) && t < |names|
    ensures MatchesAt(fs, names[t], nums[t], 2 * t)
  {
  }

  lemma HiddenMatch(fs: seq<Text>, names: seq<Text>, nums: seq<Text>, t: nat, k: nat)
    requires InTurn(fs, names, nums) && t < |names| && k + 1 < |names| && HiddenBy(names, nums, t, k)
    ensures MatchesAt(fs, names[t], nums[t], 2 * k + 1)
  {
    assert fs[2 * (k + 1)] == names[k + 1];
  }

  // ---- which deletion is right -----------------------------------------------------------

  /** The fields that should be left when entry t is deleted. */
  function WithoutPair(fs: seq<Text>, t: nat): seq<Text>
    requires 2 * t + 1 < |fs|
  {
    fs[..2 * t] + fs[2 * t + 2..]
  }

  /** The text left when the deletion hits entry t itself. */
  lemma OwnDeletion(fs: seq<Text>, x: Text, t: nat)
    requires 2 * t + 1 < |fs| && fs[2 * t] == x
    ensures Ahead(fs, x, 2 * t) + Join(fs[2 * t + 2..]) == Join(WithoutPair(fs, t))
  {
    JoinSplit(fs[..2 * t], fs[2 * t + 2..]);
  }

  /** The fields left when the deletion hits a number and the name after it. */
  function Merged(fs: seq<Text>, x: Text, m: nat): seq<Text>
    requires m + 2 < |fs| && |x| <= |fs[m]|
  {
    fs[..m] + ([fs[m][..|fs[m]| - |x|] + fs[m + 2]] + fs[m + 3..])
  }

  lemma MergedText(fs: seq<Text>, x: Text, m: nat)
    requires m + 2 < |fs| && |x| <= |fs[m]|
    ensures Ahead(fs, x, m) + Join(fs[m + 2..]) == Join(Merged(fs, x, m))
  {
    var f, gs := fs[m][..|fs[m]| - |x|] + fs[m + 2], fs[m + 2..];
    assert gs[0] == fs[m + 2] && gs[1..] == fs[m + 3..];
    assert Join(gs) == fs[m + 2] + [SLASH] + Join(fs[m + 3..]);
    JoinCons(f, fs[m + 3..]);
    JoinSplit(fs[..m], [f] + fs[m + 3..]);
    assert Ahead(fs, x, m) + Join(gs) == Join(fs[..m]) + (f + [SLASH] + Join(fs[m + 3..]));
  }

  lemma MergedSlashFree(fs: seq<Text>, x: Text, m: nat)
    requires m + 2 < |fs| && |x| <= |fs[m]| && AllSlashFree(fs)
    ensures AllSlashFree(Merged(fs, x, m))
  {
    var g := Merged(fs, x, m);
    forall j | 0 <= j < |g| ensures SlashFree(g[j]) {
      assert j < m ==> g[j] == fs[j];
      assert j > m ==> g[j] == fs[j + 2];
    }
  }

  /** Just before entry t the deletion removes the same text as it should. */
  lemma LuckyDeletion(fs: seq<Text>, x: Text, t: nat)
    requires 1 <= t && 2 * t + 1 < |fs| && SuffixOf(x, fs[2 * t - 1]) && fs[2 * t] == fs[2 * t + 1] == x
    ensures Merged(fs, x, 2 * t - 1) == WithoutPair(fs, t)
  {
    var f := fs[2 * t - 1];
    assert f == f[..|f| - |x|] + x;
  }

  /** Further ahead it does not: name k + 2 takes the place of name k + 1. */
  lemma WrongDeletion(fs: seq<Text>, names: seq<Text>, nums: seq<Text>, t: nat, k: nat)
    requires InTurn(fs, names, nums) && AllDifferent(names) && k + 1 < t < |names| && |names[t]| <= |nums[k]|
    ensures |names[t]| <= |fs[2 * k + 1]| && Merged(fs, names[t], 2 * k + 1) != WithoutPair(fs, t)
  {
    assert fs[2 * k + 1] == nums[k];
    var g, w := Merged(fs, names[t], 2 * k + 1), WithoutPair(fs, t);
    assert g[2 * k + 2] == fs[2 * (k + 2)] && w[2 * k + 2] == fs[2 * (k + 1)];
    assert names[k + 1] != names[k + 2];
  }

  /** p is where the text of entry t is found. */
  ghost predicate Found(fs: seq<Text>, names: seq<Text>, nums: seq<Text>, t: nat, p: nat)
    requires |nums| == |names| && t < |names|
  {
    IsFirst(Join(fs), TwoFields(names[t], nums[t]), p)
  }

  /** The first occurrence is the first match, and this is what is left when it is deleted. */
  lemma FirstMatch(fs: seq<Text>, x: Text, y: Text, p: nat) returns (m: nat)
    requires AllSlashFree(fs) && SlashFree(x) && SlashFree(y) && IsFirst(Join(fs), TwoFields(x, y), p)
    ensures MatchesAt(fs, x, y, m)
    ensures forall j: nat | MatchesAt(fs, x, y, j) :: m <= j
    ensures Deleted(Join(fs), p, |TwoFields(x, y)|) == Ahead(fs, x, m) + Join(fs[m + 2..])
  {
    m := OccurrenceMatches(fs, x, y, p);
    MatchOccurs(fs, x, y, m);
    OccursIs(Ahead(fs, x, m), TwoFields(x, y), Join(fs[m + 2..]));
    forall j: nat | MatchesAt(fs, x, y, j) ensures m <= j {
      if j < m {
        MatchOccurs(fs, x, y, j);
        OccursIs(Ahead(fs, x, j), TwoFields(x, y), Join(fs[j + 2..]));
        MatchesInOrder(fs, x, j, m);
        assert false;
      }
    }
  }

  /** Whether the first match lies ahead of the entry before entry t. */
  lemma HiddenFirst(names: seq<Text>, nums: seq<Text>, t: nat, m: nat)
    requires |nums| == |names| && t < |names| && m <= 2 * t
    requires m == 2 * t || (m % 2 == 1 && m / 2 + 1 < |names| && HiddenBy(names, nums, t, m / 2))
    requires forall k | 0 <= k < t - 1 && HiddenBy(names, nums, t, k) :: m <= 2 * k + 1
    ensures Hidden(names, nums, t) <==> m < 2 * t - 1
  {
    if Hidden(names, nums, t) {
      var k :| 0 <= k < t - 1 && HiddenBy(names, nums, t, k);
    }
  }

  lemma FirstOfEntry(fs: seq<Text>, names: seq<Text>, nums: seq<Text>, t: nat, p: nat) returns (m: nat)
    requires InTurn(fs, names, nums) && AllSlashFree(fs) && AllDifferent(nums) && t < |names|
    requires Found(fs, names, nums, t, p)
    ensures m <= 2 * t && MatchesAt(fs, names[t], nums[t], m)
    ensures m == 2 * t || (m % 2 == 1 && m / 2 + 1 < |names| && HiddenBy(names, nums, t, m / 2))
    ensures Hidden(names, nums, t) <==> m < 2 * t - 1
    ensures Deleted(Join(fs), p, |TwoFields(names[t], nums[t])|) == Ahead(fs, names[t], m) + Join(fs[m + 2..])
  {
    OwnMatch(fs, names, nums, t);
    assert fs[2 * t] == names[t] && fs[2 * t + 1] == nums[t];
    m := FirstMatch(fs, names[t], nums[t], p);
    MatchKinds(fs, names, nums, t, m);
    forall k | 0 <= k < t - 1 && HiddenBy(names, nums, t, k) ensures m <= 2 * k + 1 {
      HiddenMatch(fs, names, nums, t, k);
    }
    HiddenFirst(names, nums, t, m);
  }

  /** Deleting the first occurrence of entry t's text deletes entry t exactly when the entry is
      not hidden. */
  lemma DeletesExactly(fs: seq<Text>, names: seq<Text>, nums: seq<Text>, t: nat, p: nat)
    requires InTurn(fs, names, nums) && AllSlashFree(fs) && AllDifferent(names) && AllDifferent(nums) && t < |names|
    requires Found(fs, names, nums, t, p)
    ensures Deleted(Join(fs), p, |TwoFields(names[t], nums[t])|) == Join(WithoutPair(fs, t))
            <==> !Hidden(names, nums, t)
  {
    var m := FirstOfEntry(fs, names, nums, t, p);
    if m == 2 * t {
      OwnDeletion(fs, names[t], t);
    } else {
      MergedText(fs, names[t], m);
      if m == 2 * t - 1 {
        assert fs[2 * t] == names[t] && fs[2 * t + 1] == nums[t];
        LuckyDeletion(fs, names[t], t);
      } else {
        WrongText(fs, names, nums, t, m);
      }
    }
  }

  lemma WrongText(fs: seq<Text>, names: seq<Text>, nums: seq<Text>, t: nat, m: nat)
    requires InTurn(fs, names, nums) && AllSlashFree(fs) && AllDifferent(names) && t < |names|
    requires m % 2 == 1 && m < 2 * t - 1 && MatchesAt(fs, names[t], nums[t], m)
    ensures Join(Merged(fs, names[t], m)) != Join(WithoutPair(fs, t))
  {
    FieldIs(fs, names, nums, m);
    WrongDeletion(fs, names, nums, t, m / 2);
    MergedSlashFree(fs, names[t], m);
    if Join(Merged(fs, names[t], m)) == Join(WithoutPair(fs, t)) {
      JoinInjective(Merged(fs, names[t], m), WithoutPair(fs, t));
      assert false;
    }
  }

  // ---- directories -----------------------------------------------------------------------

  /** A directory as the operations keep it: slash-free names, no name and no number twice. */
  predicate Valid(es: seq<Entry>)
  {
    && NamesSlashFree(es)
    && (forall j, k | 0 <= j < k < |es| :: es[j].name != es[k].name)
    && (forall j, k | 0 <= j < k < |es| :: es[j].inum != es[k].inum)
  }

  function Names(es: seq<Entry>): (s: seq<Text>)
    ensures |s| == |es| && forall k | 0 <= k < |es| :: s[k] == es[k].name
  {
    seq(|es|, k requires 0 <= k < |es| => es[k].name)
  }

  function Nums(es: seq<Entry>): (s: seq<Text>)
    ensures |s| == |es| && forall k | 0 <= k < |es| :: s[k] == Dec(es[k].inum)
  {
    seq(|es|, k requires 0 <= k < |es| => Dec(es[k].inum))
  }

  lemma DecInjective(a: nat, b: nat)
    requires Dec(a) == Dec(b)
    ensures a == b
  {
    DecRound(a);
    DecRound(b);
  }

  lemma {:induction false} FieldPair(es: seq<Entry>, k: nat)
    requires k < |es|
    ensures FieldsOf(es)[2 * k] == es[k].name && FieldsOf(es)[2 * k + 1] == Dec(es[k].inum)
  {
    if k > 0 {
      FieldPair(es[1..], k - 1);
      Shifted([es[0].name, Dec(es[0].inum)], FieldsOf(es[1..]), 2 * (k - 1));
    }
  }

  lemma Shifted(a: seq<Text>, b: seq<Text>, j: nat)
    requires |a| == 2 && j + 1 < |b|
    ensures (a + b)[j + 2] == b[j] && (a + b)[j + 3] == b[j + 1]
  {
  }

  lemma FieldsInTurn(es: seq<Entry>, fs: seq<Text>)
    requires fs == FieldsOf(es)
    ensures InTurn(fs, Names(es), Nums(es))
  {
    forall k | 0 <= k < |es| ensures fs[2 * k] == Names(es)[k] && fs[2 * k + 1] == Nums(es)[k] {
      FieldPair(es, k);
    }
  }

  lemma ValidDifferent(es: seq<Entry>)
    requires Valid(es)
    ensures AllDifferent(Names(es)) && AllDifferent(Nums(es))
  {
    forall j, k | 0 <= j < k < |es| ensures Nums(es)[j] != Nums(es)[k] {
      if Dec(es[j].inum) == Dec(es[k].inum) {
        DecInjective(es[j].inum, es[k].inum);
      }
    }
  }

  function Without(es: seq<Entry>, t: nat): seq<Entry>
    requires t < |es|
  {
    es[..t] + es[t + 1..]
  }

  lemma FieldsWithout(es: seq<Entry>, t: nat, fs: seq<Text>)
    requires t < |es| && fs == FieldsOf(es)
    ensures FieldsOf(Without(es, t)) == WithoutPair(fs, t)
  {
    var a, e, b := es[..t], es[t], es[t + 1..];
    Around(es, t);
    FieldsAround(a, e, b);
    PairOut(FieldsOf(a), e.name, Dec(e.inum), FieldsOf(b), t);
  }

  lemma Around(es: seq<Entry>, t: nat)
    requires t < |es|
    ensures es == es[..t] + ([es[t]] + es[t + 1..])
  {
  }

  lemma FieldsAround(a: seq<Entry>, e: Entry, b: seq<Entry>)
    ensures FieldsOf(a + ([e] + b)) == FieldsOf(a) + ([e.name, Dec(e.inum)] + FieldsOf(b))
    ensures FieldsOf(a + b) == FieldsOf(a) + FieldsOf(b)
  {
    FieldsOfSplit(a, [e] + b);
    FieldsCons(e, b);
    FieldsOfSplit(a, b);
  }

  lemma PairOut(a: seq<Text>, x: Text, y: Text, b: seq<Text>, t: nat)
    requires |a| == 2 * t
    ensures WithoutPair(a + ([x, y] + b), t) == a + b
  {
  }

  /** Unlinking entry t, by deleting the first occurrence of its text from the directory, leaves
      the directory without that entry exactly when no two neighbours that both precede it hide it:
      a number that ends in the entry's name, before a name that spells the entry's number. */
  lemma UnlinkExactlyWhenNotHidden(es: seq<Entry>, t: nat, p: nat)
    requires Valid(es) && t < |es| && IsFirst(Encode(es), EntryText(es[t]), p)
    ensures Deleted(Encode(es), p, |EntryText(es[t])|) == Encode(Without(es, t)) <==> !Hidden(Names(es), Nums(es), t)
  {
    var fs := FieldsOf(es);
    FieldsInTurn(es, fs);
    FieldsSlashFree(es);
    ValidDifferent(es);
    FieldsWithout(es, t, fs);
    DeletesExactly(fs, Names(es), Nums(es), t, p);
  }

  /** Past the place of the merger, fields move up by two. */
  lemma MergedAfter(fs: seq<Text>, x: Text, m: nat, j: nat)
    requires m + 2 < |fs| && |x| <= |fs[m]| && m < j < |fs| - 2
    ensures Merged(fs, x, m)[j] == fs[j + 2]
  {
  }

  /** On fields: a deletion ahead of entry t moves the entry's two fields up by one entry. */
  lemma MergerMoves(fs: seq<Text>, x: Text, m: nat, t: nat, gs: seq<Text>)
    requires m < 2 * t - 2 && 2 * t + 1 < |fs| && |x| <= |fs[m]| && AllSlashFree(fs) && AllSlashFree(gs)
    requires Join(gs) == Ahead(fs, x, m) + Join(fs[m + 2..])
    ensures 2 * t - 1 < |gs| && gs[2 * t - 2] == fs[2 * t] && gs[2 * t - 1] == fs[2 * t + 1]
  {
    MergedText(fs, x, m);
    MergedSlashFree(fs, x, m);
    JoinInjective(gs, Merged(fs, x, m));
    MergedAfter(fs, x, m, 2 * t - 2);
    MergedAfter(fs, x, m, 2 * t - 1);
  }

  lemma TurnAt(fs: seq<Text>, names: seq<Text>, nums: seq<Text>, k: nat)
    requires InTurn(fs, names, nums) && 2 * k + 1 < |fs|
    ensures k < |names| && fs[2 * k] == names[k] && fs[2 * k + 1] == nums[k]
  {
  }

  lemma HiddenStarts(fs: seq<Text>, names: seq<Text>, nums: seq<Text>, t: nat, p: nat) returns (m: nat)
    requires InTurn(fs, names, nums) && AllSlashFree(fs) && AllDifferent(nums) && t < |names|
    requires Found(fs, names, nums, t, p) && Hidden(names, nums, t)
    ensures m < 2 * t - 2 && m < |fs| && |names[t]| <= |fs[m]|
    ensures Deleted(Join(fs), p, |TwoFields(names[t], nums[t])|) == Ahead(fs, names[t], m) + Join(fs[m + 2..])
  {
    m := FirstOfEntry(fs, names, nums, t, p);
  }

  lemma HiddenMoves(fs: seq<Text>, names: seq<Text>, nums: seq<Text>, t: nat, p: nat, gs: seq<Text>)
    requires InTurn(fs, names, nums) && AllSlashFree(fs) && AllDifferent(nums) && t < |names|
    requires Found(fs, names, nums, t, p) && Hidden(names, nums, t) && AllSlashFree(gs)
    requires Join(gs) == Deleted(Join(fs), p, |TwoFields(names[t], nums[t])|)
    ensures 0 < t && 2 * t - 1 < |gs| && gs[2 * t - 2] == fs[2 * t] && gs[2 * t - 1] == fs[2 * t + 1]
  {
    var m := HiddenStarts(fs, names, nums, t, p);
    MergerMoves(fs, names[t], m, t, gs);
  }

  lemma HiddenMovesEntry(es: seq<Entry>, t: nat, p: nat, fs: seq<Text>, gs: seq<Text>)
    requires Valid(es) && t < |es| && fs == FieldsOf(es) && AllSlashFree(gs)
    requires Found(fs, Names(es), Nums(es), t, p) && Hidden(Names(es), Nums(es), t)
    requires Join(gs) == Deleted(Join(fs), p, |TwoFields(Names(es)[t], Nums(es)[t])|)
    ensures 0 < t && 2 * t - 1 < |gs| && gs[2 * t - 2] == fs[2 * t] && gs[2 * t - 1] == fs[2 * t + 1]
  {
    FieldsInTurn(es, fs);
    FieldsSlashFree(es);
    ValidDifferent(es);
    HiddenMoves(fs, Names(es), Nums(es), t, p, gs);
  }

  lemma SameEntry(a: Entry, b: Entry)
    requires a.name == b.name && Dec(a.inum) == Dec(b.inum)
    ensures a == b
  {
    DecInjective(a.inum, b.inum);
  }

  /** Entries whose fields agree are equal. */
  lemma SameFields(es: seq<Entry>, t: nat, fs: seq<Text>, es': seq<Entry>, k: nat, gs: seq<Text>)
    requires fs == FieldsOf(es) && gs == FieldsOf(es') && 2 * t + 1 < |fs| && 2 * k + 1 < |gs|
    requires gs[2 * k] == fs[2 * t] && gs[2 * k + 1] == fs[2 * t + 1]
    ensures t < |es| && k < |es'| && es'[k] == es[t]
  {
    FieldsInTurn(es, fs);
    FieldsInTurn(es', gs);
    TurnAt(fs, Names(es), Nums(es), t);
    TurnAt(gs, Names(es'), Nums(es'), k);
    SameEntry(es'[k], es[t]);
  }

  lemma EntryTextIs(es: seq<Entry>, t: nat, x: Text, y: Text)
    requires t < |es| && x == Names(es)[t] && y == Nums(es)[t]
    ensures EntryText(es[t]) == TwoFields(x, y)
  {
  }

  lemma MovedEntry(es: seq<Entry>, t: nat, fs: seq<Text>, es': seq<Entry>, gs: seq<Text>)
    requires fs == FieldsOf(es) && gs == FieldsOf(es') && 0 < t < |es| && 2 * t - 1 < |gs|
    requires gs[2 * t - 2] == fs[2 * t] && gs[2 * t - 1] == fs[2 * t + 1]
    ensures t <= |es'| && es'[t - 1] == es[t]
  {
    SameFields(es, t, fs, es', t - 1, gs);
  }

  /** After a deletion that hit the wrong text, every reading of the directory still lists the entry
      that was to be deleted. */
  lemma HiddenStaysListed(es: seq<Entry>, t: nat, p: nat, es': seq<Entry>)
    requires Valid(es) && t < |es| && IsFirst(Encode(es), EntryText(es[t]), p) && Hidden(Names(es), Nums(es), t)
    requires NamesSlashFree(es') && Encode(es') == Deleted(Encode(es), p, |EntryText(es[t])|)
    ensures 0 < t <= |es'| && es'[t - 1] == es[t]
  {
    FieldsSlashFree(es');
    EntryTextIs(es, t, Names(es)[t], Nums(es)[t]);
    HiddenMovesEntry(es, t, p, FieldsOf(es), FieldsOf(es'));
    MovedEntry(es, t, FieldsOf(es), es', FieldsOf(es'));
  }

  lemma {:induction false} FirstExists(s: Text, pat: Text, q: nat)
    requires OccursAt(s, pat, q)
    ensures exists p: nat :: IsFirst(s, pat, p)
  {
    if r: nat :| r < q && OccursAt(s, pat, r) {
      FirstExists(s, pat, r);
    } else {
      assert IsFirst(s, pat, q);
    }
  }

  /** An entry's text is found. */
  lemma EntryFound(es: seq<Entry>, t: nat)
    requires t < |es|
    ensures exists p: nat :: IsFirst(Encode(es), EntryText(es[t]), p)
  {
    var fs, x, y := FieldsOf(es), es[t].name, Dec(es[t].inum);
    FieldsInTurn(es, fs);
    assert Names(es)[t] == x && Nums(es)[t] == y && EntryText(es[t]) == TwoFields(x, y);
    OwnMatch(fs, Names(es), Nums(es), t);
    MatchOccurs(fs, x, y, 2 * t);
    OccursIs(Ahead(fs, x, 2 * t), TwoFields(x, y), Join(fs[2 * t + 2..]));
    FirstExists(Join(fs), TwoFields(x, y), |Ahead(fs, x, 2 * t)|);
    var p: nat :| IsFirst(Join(fs), TwoFields(x, y), p);
    assert IsFirst(Encode(es), EntryText(es[t]), p);
  }

  lemma SuffixDigits(x: Text, d: Text)
    requires AllDigits(d) && SuffixOf(x, d)
    ensures AllDigits(x)
  {
    assert forall k | 0 <= k < |x| :: x[k] == d[|d| - |x| + k];
  }

  /** A name with a character that is not a digit is never hidden. */
  lemma WordsAreNotHidden(es: seq<Entry>, t: nat)
    requires t < |es| && !AllDigits(es[t].name)
    ensures !Hidden(Names(es), Nums(es), t)
  {
    forall k | 0 <= k < t - 1 ensures !HiddenBy(Names(es), Nums(es), t, k) {
      if SuffixOf(Names(es)[t], Nums(es)[k]) {
        SuffixDigits(Names(es)[t], Nums(es)[k]);
      }
    }
  }

  /** A directory in which deletion goes wrong: "x" is inode 12, "7" is inode 5, and "2", the entry
      to delete, is inode 7.  The text "2/7/" is found in "x/12/7/5/", and "x" becomes inode 15. */
  lemma DeletionCanGoWrong(p: nat)
    requires var es := [Entry([120], 12), Entry([55], 5), Entry([50], 7)]; IsFirst(Encode(es), EntryText(es[2]), p)
    ensures var es := [Entry([120], 12), Entry([55], 5), Entry([50], 7)];
            Valid(es) && Deleted(Encode(es), p, |EntryText(es[2])|) != Encode(Without(es, 2))
  {
    var es := [Entry([120], 12), Entry([55], 5), Entry([50], 7)];
    assert Dec(12) == [49, 50] && Dec(7) == [55];
    assert HiddenBy(Names(es), Nums(es), 2, 0);
    UnlinkExactlyWhenNotHidden(es, 2, p);
  }
}
