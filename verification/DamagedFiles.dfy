/** Keeping a damaged file aside: it is renamed to a free name stamped with the time, and only the
    newest few such copies of the file are kept. */
module DamagedFiles {
  import opened Sorting
  import opened Decimals
  import opened Texts
  import opened Wrappers

  /** What a name in a folder is: a regular file with its bytes, or something else. */
  datatype Entry = Regular(bytes: seq<nat>) | Other

  type Files = map<string, Entry>

  datatype CopyKey = CopyKey(stamp: string, n: nat)

  datatype Copy = Copy(key: CopyKey, name: string)

  datatype Result = NothingToKeep | KeptAside(bytes: nat, keptAs: string) | CouldNotKeep(bytes: nat)

  /** Where an exception comes, if one does: after the rename either while the new path is put into the
      result, or later, which only stops the pruning and leaves every copy not yet removed as if it
      could not be. */
  datatype Thrown = Nowhere | BeforeTheSize | BeforeTheRename | NamingTheCopy

  /** What the file system allows: reading the file's status and size, learning whether the new name is
      taken, renaming; and the names whose removal fails. */
  datatype Access = Access(status: bool, size: bool, look: bool, renames: bool, stuck: set<string>, thrown: Thrown)

  const STAMP_CHARS: nat := 15

  function BadPrefix(leaf: string): string { leaf + ".bad-" }

  predicate KeyLess(a: CopyKey, b: CopyKey)
  {
    if a.stamp != b.stamp then Less(a.stamp, b.stamp) else a.n < b.n
  }

  function ByKey(): (Copy, Copy) -> bool { (a: Copy, b: Copy) => KeyLess(a.key, b.key) }

  /** The key a copy's name holds after the prefix: the stamp, and the number after a dash, 1 when
      there is none; numbers past 100000 are nobody's. */
  function KeyOf(rest: string): Option<CopyKey>
  {
    if |rest| < STAMP_CHARS then None
    else if |rest| == STAMP_CHARS then Some(CopyKey(rest, 1))
    else if rest[STAMP_CHARS] != '-' || |rest| == STAMP_CHARS + 1 then None
    else
      var digits := rest[STAMP_CHARS + 1..];
      if AllDigits(digits) && Value(digits) <= 100000 then Some(CopyKey(rest[..STAMP_CHARS], Value(digits))) else None
  }

  lemma {:induction false} ValueOfPrefix(s: string, i: nat)
    requires AllDigits(s) && i <= |s|
    ensures Value(s[..i]) <= Value(s)
    decreases |s| - i
  {
    if i < |s| {
      ValueOfPrefix(s, i + 1);
      assert s[..i + 1][..i] == s[..i];
    } else {
      assert s[..i] == s;
    }
  }

  method ParseKey(rest: string) returns (key: Option<CopyKey>)
    ensures key == KeyOf(rest)
  {
    if |rest| < STAMP_CHARS { return None; }
    var stamp := rest[..STAMP_CHARS];
    if |rest| == STAMP_CHARS {
      assert stamp == rest;
      return Some(CopyKey(stamp, 1));
    }
    if rest[STAMP_CHARS] != '-' || |rest| == STAMP_CHARS + 1 { return None; }
    ghost var digits := rest[STAMP_CHARS + 1..];
    var n := 0;
    var i := STAMP_CHARS + 1;
    while i < |rest|
      invariant STAMP_CHARS + 1 <= i <= |rest|
      invariant AllDigits(digits[..i - STAMP_CHARS - 1]) && n == Value(digits[..i - STAMP_CHARS - 1])
    {
      ghost var k := i - STAMP_CHARS - 1;
      assert digits[k] == rest[i];
      if !IsDigit(rest[i]) { return None; }
      assert digits[..k + 1][..k] == digits[..k];
      n := n * 10 + DigitValue(rest[i]);
      if n > 100000 {
        if AllDigits(digits) { ValueOfPrefix(digits, k + 1); }
        return None;
      }
      i := i + 1;
    }
    assert digits[..|digits|] == digits;
    return Some(CopyKey(stamp, n));
  }

  /** The copy a name is of `leaf`, if it is one. */
  function CopyOf(files: Files, leaf: string, name: string): Option<Copy>
  {
    if name !in files || files[name].Other? || !(BadPrefix(leaf) <= name) then None
    else match KeyOf(name[|BadPrefix(leaf)|..])
      case None => None
      case Some(key) => Some(Copy(key, name))
  }

  function Copies(files: Files, leaf: string, listing: seq<string>): seq<Copy>
  {
    if listing == [] then []
    else
      var n := |listing| - 1;
      match CopyOf(files, leaf, listing[n])
      case None => Copies(files, leaf, listing[..n])
      case Some(c) => Copies(files, leaf, listing[..n]) + [c]
  }

  function Larger(a: nat, b: nat): nat { if a < b then b else a }

  /** One past every number already used with this stamp. */
  function NextNumber(copies: seq<Copy>, stamp: string): (n: nat)
    ensures n >= 1
  {
    if copies == [] then 1
    else
      var n := NextNumber(copies[..|copies| - 1], stamp);
      var key := copies[|copies| - 1].key;
      if key.stamp == stamp then Larger(n, key.n + 1) else n
  }

  function TargetName(leaf: string, stamp: string, n: nat): string
  {
    BadPrefix(leaf) + stamp + (if n == 1 then "" else "-" + Decimal(n))
  }

  function Kept(keep: int): nat { if keep < 0 then 0 else keep }

  /** The copies the pruning removes: all but the last `keep` in the order of their keys. */
  function Doomed(copies: seq<Copy>, keep: int): seq<Copy>
  {
    var sorted := StableSort(copies, ByKey());
    if |sorted| > Kept(keep) then sorted[..|sorted| - Kept(keep)] else []
  }

  function Names(copies: seq<Copy>): set<string> { set i | 0 <= i < |copies| :: copies[i].name }

  function Made(leaf: string, stamp: string, copies: seq<Copy>): Copy
  {
    var n := NextNumber(copies, stamp);
    Copy(CopyKey(stamp, n), TargetName(leaf, stamp, n))
  }

  /** The folder after a successful set-aside: the damaged bytes under the new name, and the oldest
      copies, as far as they can be removed, gone. */
  function After(files: Files, leaf: string, stamp: string, keep: int, listing: seq<string>, stuck: set<string>): Files
    requires leaf in files
  {
    var copies := Copies(files, leaf, listing);
    var made := Made(leaf, stamp, copies);
    (files - {leaf})[made.name := files[leaf]] - (Names(Doomed(copies + [made], keep)) - stuck)
  }

  // ----- the folder -------------------------------------------------------------------------

  class Folder {
    var files: Files

    constructor (files: Files)
      ensures this.files == files
    {
      this.files := files;
    }

    /** The file can be seen to be a regular one with something in it. */
    ghost predicate SomethingToKeep(leaf: string, io: Access)
      reads this
    {
      && io.thrown != BeforeTheSize && io.status && io.size
      && leaf in files && files[leaf].Regular? && files[leaf].bytes != []
    }

    /** setDamagedFileAside for the file `leaf`. `listing` is what the directory iterator visits: all the
        folder's names unless it stops on an error. */
    method SetAside(leaf: string, stamp: string, keep: int, listing: seq<string>, io: Access)
      returns (r: Result)
      modifies this
      ensures r.NothingToKeep? <==> !old(SomethingToKeep(leaf, io))
      ensures !r.KeptAside? ==> files == old(files)
      ensures !r.NothingToKeep? ==> r.bytes == |old(files)[leaf].bytes|
      ensures !r.NothingToKeep? ==>
        var made := Made(leaf, stamp, Copies(old(files), leaf, listing));
        r.CouldNotKeep? <==>
        io.thrown == BeforeTheRename || made.key.n > 99 || !io.look || made.name in old(files) || !io.renames
      ensures r.KeptAside? ==>
        var made := Made(leaf, stamp, Copies(old(files), leaf, listing));
        if io.thrown == NamingTheCopy then
          r.keptAs == "" && files == (old(files) - {leaf})[made.name := old(files)[leaf]]
        else
          r.keptAs == made.name && files == After(old(files), leaf, stamp, keep, listing, io.stuck)
    {
      if io.thrown == BeforeTheSize { return NothingToKeep; }
      if !io.status || leaf !in files || files[leaf].Other? { return NothingToKeep; }
      var size := |files[leaf].bytes|;
      if !io.size || size == 0 { return NothingToKeep; }
      if io.thrown == BeforeTheRename { return CouldNotKeep(size); }

      var copies := CopiesIn(files, leaf, listing);
      var n := 1;
      for i := 0 to |copies|
        invariant n == NextNumber(copies[..i], stamp)
      {
        assert copies[..i + 1][..i] == copies[..i];
        if copies[i].key.stamp == stamp { n := Larger(n, copies[i].key.n + 1); }
      }
      assert copies[..|copies|] == copies;
      var target := BadPrefix(leaf) + stamp + (if n == 1 then "" else "-" + Decimal(n));
      if n > 99 || !io.look || target in files { return CouldNotKeep(size); }
      if !io.renames { return CouldNotKeep(size); }
      files := (files - {leaf})[target := files[leaf]];
      if io.thrown == NamingTheCopy { return KeptAside(size, ""); }
      Prune(copies + [Copy(CopyKey(stamp, n), target)], keep, io.stuck);
      return KeptAside(size, target);
    }

    method Prune(copies: seq<Copy>, keep: int, stuck: set<string>)
      modifies this
      ensures files == old(files) - (Names(Doomed(copies, keep)) - stuck)
    {
      var sorted := StableSort(copies, ByKey());
      var kept := if keep < 0 then 0 else keep;
      if |sorted| > kept {
        ghost var doomed := Doomed(copies, keep);
        var i := 0;
        while i + kept < |sorted|
          invariant 0 <= i <= |doomed|
          invariant files == old(files) - (Names(doomed[..i]) - stuck)
        {
          assert Names(doomed[..i + 1]) == Names(doomed[..i]) + {doomed[i].name} by { NamesNext(doomed, i); }
          if sorted[i].name !in stuck { files := files - {sorted[i].name}; }
          i := i + 1;
        }
        assert doomed[..i] == doomed;
      }
    }
  }

  lemma NamesNext(copies: seq<Copy>, i: nat)
    requires i < |copies|
    ensures Names(copies[..i + 1]) == Names(copies[..i]) + {copies[i].name}
  {
    var a, b := Names(copies[..i + 1]), Names(copies[..i]) + {copies[i].name};
    forall x ensures x in a <==> x in b {
      if x in a {
        var k :| 0 <= k < i + 1 && copies[..i + 1][k].name == x;
        if k < i { assert copies[..i][k].name == x; }
      }
      if x in b {
        if x == copies[i].name { assert copies[..i + 1][i].name == x; }
        else {
          var k :| 0 <= k < i && copies[..i][k].name == x;
          assert copies[..i + 1][k].name == x;
        }
      }
    }
  }

  method CopiesIn(files: Files, leaf: string, listing: seq<string>) returns (copies: seq<Copy>)
    ensures copies == Copies(files, leaf, listing)
  {
    copies := [];
    var prefix := BadPrefix(leaf);
    for i := 0 to |listing|
      invariant copies == Copies(files, leaf, listing[..i])
    {
      var name := listing[i];
      assert listing[..i + 1][..i] == listing[..i];
      if name !in files || files[name].Other? { continue; }
      if !(prefix <= name) { continue; }
      var key := ParseKey(name[|prefix|..]);
      if key.None? { continue; }
      copies := copies + [Copy(key.value, name)];
    }
    assert listing[..|listing|] == listing;
  }

  // ----- which copies are kept --------------------------------------------------------------

  lemma KeyOrder()
    ensures StrictWeakOrder(ByKey())
    ensures forall a: Copy, b: Copy :: a.key == b.key || KeyLess(a.key, b.key) || KeyLess(b.key, a.key)
  {
    forall a: Copy, b: Copy ensures a.key == b.key || KeyLess(a.key, b.key) || KeyLess(b.key, a.key) {
      LessIsTotal(a.key.stamp, b.key.stamp);
    }
    forall a: Copy, b: Copy | KeyLess(a.key, b.key) ensures !KeyLess(b.key, a.key) {
      LessIsAsymmetric(a.key.stamp, b.key.stamp);
    }
    forall a: Copy, b: Copy, c: Copy | KeyLess(a.key, b.key) ensures KeyLess(a.key, c.key) || KeyLess(c.key, b.key) {
      LessIsTotal(a.key.stamp, c.key.stamp);
      LessIsTransitive(c.key.stamp, a.key.stamp, b.key.stamp);
    }
  }

  function Survivors(copies: seq<Copy>, keep: int): seq<Copy>
  {
    SortPermutes(copies, ByKey());
    StableSort(copies, ByKey())[|Doomed(copies, keep)|..]
  }

  lemma Parted(copies: seq<Copy>, keep: int)
    ensures StableSort(copies, ByKey()) == Doomed(copies, keep) + Survivors(copies, keep)
    ensures |Survivors(copies, keep)| == if Kept(keep) < |copies| then Kept(keep) else |copies|
  {
    hide ByKey;
    SortPermutes(copies, ByKey());
  }

  /** Pruning leaves as many copies as may be kept, and none of them older than one it removes. */
  lemma NewestAreKept(copies: seq<Copy>, keep: int)
    ensures multiset(Doomed(copies, keep)) + multiset(Survivors(copies, keep)) == multiset(copies)
    ensures |Survivors(copies, keep)| == if Kept(keep) < |copies| then Kept(keep) else |copies|
    ensures forall i, j | 0 <= i < |Doomed(copies, keep)| && 0 <= j < |Survivors(copies, keep)| ::
      !KeyLess(Survivors(copies, keep)[j].key, Doomed(copies, keep)[i].key)
  {
    hide KeyLess, Doomed, Survivors;
    var doomed, survivors := Doomed(copies, keep), Survivors(copies, keep);
    Parted(copies, keep);
    SortPermutes(copies, ByKey());
    KeyOrder();
    SortSorts(copies, ByKey());
    forall i, j | 0 <= i < |doomed| && 0 <= j < |survivors| ensures !KeyLess(survivors[j].key, doomed[i].key) {
      var sorted := StableSort(copies, ByKey());
      assert sorted[i] == doomed[i] && sorted[|doomed| + j] == survivors[j];
      assert !ByKey()(sorted[|doomed| + j], sorted[i]);
    }
  }

  /** How many copies are newer than a key. */
  function Above(copies: seq<Copy>, key: CopyKey): nat
  {
    if copies == [] then 0
    else Above(copies[1..], key) + if KeyLess(key, copies[0].key) then 1 else 0
  }

  lemma {:induction false} AboveOfJoin(a: seq<Copy>, b: seq<Copy>, key: CopyKey)
    ensures Above(a + b, key) == Above(a, key) + Above(b, key)
  {
    if a == [] {
      assert a + b == b;
    } else {
      AboveOfJoin(a[1..], b, key);
      assert (a + b)[1..] == a[1..] + b;
    }
  }

  lemma AboveWithout(b: seq<Copy>, i: nat, key: CopyKey)
    requires i < |b|
    ensures Above(b, key) == Above(b[..i] + b[i + 1..], key) + if KeyLess(key, b[i].key) then 1 else 0
  {
    hide KeyLess;
    AboveOfJoin(b[..i], b[i + 1..], key);
    assert b == b[..i] + b[i..] && b[i..][1..] == b[i + 1..];
    AboveOfJoin(b[..i], b[i..], key);
  }

  lemma {:induction false} AboveIgnoresOrder(a: seq<Copy>, b: seq<Copy>, key: CopyKey)
    requires multiset(a) == multiset(b)
    ensures Above(a, key) == Above(b, key)
  {
    hide KeyLess;
    MultisetMembers(a, b);
    if a != [] {
      assert a[0] in b;
      var i :| 0 <= i < |b| && b[i] == a[0];
      assert multiset(a[1..]) == multiset(b[..i] + b[i + 1..]) by {
        TailMultiset(a);
        RemovedMultiset(b, i);
      }
      AboveIgnoresOrder(a[1..], b[..i] + b[i + 1..], key);
      AboveWithout(b, i, key);
    }
  }

  lemma {:induction false} AboveAll(copies: seq<Copy>, key: CopyKey)
    requires forall i :: 0 <= i < |copies| ==> KeyLess(key, copies[i].key)
    ensures Above(copies, key) == |copies|
  {
    if copies != [] { AboveAll(copies[1..], key); }
  }

  lemma {:induction false} AboveNone(copies: seq<Copy>, key: CopyKey)
    requires forall i :: 0 <= i < |copies| ==> !KeyLess(key, copies[i].key)
    ensures Above(copies, key) == 0
  {
    if copies != [] { AboveNone(copies[1..], key); }
  }

  lemma {:induction false} NumberIsNew(copies: seq<Copy>, stamp: string)
    ensures forall i :: 0 <= i < |copies| && copies[i].key.stamp == stamp ==>
      copies[i].key.n < NextNumber(copies, stamp)
  {
    if copies != [] { NumberIsNew(copies[..|copies| - 1], stamp); }
  }

  /** The m-th copy's key is its own. */
  predicate OwnKey(copies: seq<Copy>, m: nat)
    requires m < |copies|
  {
    forall i :: 0 <= i < |copies| && i != m ==> copies[i].key != copies[m].key
  }

  /** Where a copy with a key of its own stands among the sorted ones: everything after it is newer. */
  lemma Standing(all: seq<Copy>, m: nat) returns (p: nat)
    requires m < |all| && OwnKey(all, m)
    ensures var sorted := StableSort(all, ByKey());
      && p < |sorted| == |all| && sorted[p] == all[m]
      && (forall i :: 0 <= i < |sorted| && i != p ==> sorted[i] != all[m])
      && |sorted| - 1 - p == Above(all, all[m].key)
  {
    hide KeyLess;
    var sorted, x := StableSort(all, ByKey()), all[m];
    KeyOrder();
    SortPermutes(all, ByKey());
    SortSorts(all, ByKey());
    MultisetMembers(sorted, all);
    assert x in sorted;
    p :| 0 <= p < |sorted| && sorted[p] == x;
    OnceWithOwnKey(all, m);
    forall i | 0 <= i < |sorted| && i != p ensures sorted[i] != x && sorted[i].key != x.key {
      if sorted[i] == x { OccursOnce(sorted, x, i, p); }
      assert sorted[i] in all;
    }
    forall i | 0 <= i < p ensures !KeyLess(x.key, sorted[i].key) { assert !ByKey()(sorted[p], sorted[i]); }
    forall i | p < i < |sorted| ensures KeyLess(x.key, sorted[i].key) { assert !ByKey()(sorted[i], sorted[p]); }
    AboveSplit(sorted, p, x.key);
    AboveIgnoresOrder(sorted, all, x.key);
  }

  lemma OnceWithOwnKey(all: seq<Copy>, m: nat)
    requires m < |all| && OwnKey(all, m)
    ensures multiset(all)[all[m]] == 1
  {
    assert all == all[..m] + [all[m]] + all[m + 1..];
    assert all[m] !in all[..m] && all[m] !in all[m + 1..];
  }

  lemma NotBelowItself(c: Copy)
    ensures Above([c], c.key) == 0
  {
    AboveNone([c], c.key);
  }

  /** A copy with a key of its own is removed exactly when at least `keep` of the copies are newer. */
  lemma GoneExactly(all: seq<Copy>, m: nat, keep: int)
    requires m < |all| && OwnKey(all, m)
    ensures all[m] in Doomed(all, keep) <==> Above(all, all[m].key) >= Kept(keep)
  {
    hide ByKey, Above;
    var p := Standing(all, m);
    var sorted, doomed := StableSort(all, ByKey()), Doomed(all, keep);
    assert forall i :: 0 <= i < |doomed| ==> doomed[i] == sorted[i];
    if p < |doomed| { assert doomed[p] == all[m]; }
  }

  /** The copy just made is removed exactly when at least `keep` of the others are newer. */
  lemma SurvivesExactly(copies: seq<Copy>, made: Copy, keep: int)
    requires forall i :: 0 <= i < |copies| ==> copies[i].key != made.key
    ensures made in Doomed(copies + [made], keep) <==> Above(copies, made.key) >= Kept(keep)
  {
    hide Above, Doomed;
    GoneExactly(copies + [made], |copies|, keep);
    AboveOfJoin(copies, [made], made.key);
    NotBelowItself(made);
  }

  lemma AboveSplit(sorted: seq<Copy>, p: nat, key: CopyKey)
    requires p < |sorted|
    requires forall i :: 0 <= i < p ==> !KeyLess(key, sorted[i].key)
    requires forall i :: p < i < |sorted| ==> KeyLess(key, sorted[i].key)
    requires sorted[p].key == key
    ensures Above(sorted, key) == |sorted| - 1 - p
  {
    LessIsAsymmetric(key.stamp, key.stamp);
    assert sorted == sorted[..p + 1] + sorted[p + 1..];
    AboveOfJoin(sorted[..p + 1], sorted[p + 1..], key);
    AboveNone(sorted[..p + 1], key);
    AboveAll(sorted[p + 1..], key);
  }

  // ----- what a successful set-aside leaves -------------------------------------------------

  /** Copies are regular files of the folder, each listed name giving at most one. */
  lemma {:induction false} CopiesAreFiles(files: Files, leaf: string, listing: seq<string>)
    ensures forall i :: 0 <= i < |Copies(files, leaf, listing)| ==>
      var c := Copies(files, leaf, listing)[i];
      c.name in files && c.name in listing && c.name != leaf
    ensures NoRepeats(listing) ==> forall i, j | 0 <= i < j < |Copies(files, leaf, listing)| ::
      Copies(files, leaf, listing)[i].name != Copies(files, leaf, listing)[j].name
  {
    hide KeyOf;
    if listing != [] {
      CopiesAreFiles(files, leaf, listing[..|listing| - 1]);
    }
  }

  lemma MadeIsNew(files: Files, leaf: string, stamp: string, listing: seq<string>)
    ensures var copies := Copies(files, leaf, listing);
      forall i :: 0 <= i < |copies| ==> copies[i].key != Made(leaf, stamp, copies).key
  {
    NumberIsNew(Copies(files, leaf, listing), stamp);
  }

  lemma DoomedIsPart(copies: seq<Copy>, keep: int)
    ensures forall c :: c in Doomed(copies, keep) || c in Survivors(copies, keep) <==> c in copies
  {
    hide ByKey, Doomed, Survivors;
    Parted(copies, keep);
    SortPermutes(copies, ByKey());
    MultisetMembers(StableSort(copies, ByKey()), copies);
    forall c ensures c in Doomed(copies, keep) || c in Survivors(copies, keep) <==> c in copies {
      assert c in Doomed(copies, keep) + Survivors(copies, keep) <==> c in StableSort(copies, ByKey());
    }
  }

  /** The damaged bytes are still there afterwards, under the new name, exactly when fewer than `keep`
      of the copies already there are newer than the one just made (or it could not be removed). */
  lemma BytesSurviveExactly(files: Files, leaf: string, stamp: string, keep: int, listing: seq<string>,
                            stuck: set<string>)
    requires leaf in files && Made(leaf, stamp, Copies(files, leaf, listing)).name !in files
    ensures var copies := Copies(files, leaf, listing);
      var made := Made(leaf, stamp, copies);
      var after := After(files, leaf, stamp, keep, listing, stuck);
      && leaf !in after
      && (made.name in after <==> made.name in stuck || Above(copies, made.key) < Kept(keep))
      && (made.name in after ==> after[made.name] == files[leaf])
  {
    hide Above, Made, Doomed, Copies;
    var copies := Copies(files, leaf, listing);
    var made := Made(leaf, stamp, copies);
    MadeIsNew(files, leaf, stamp, listing);
    CopiesAreFiles(files, leaf, listing);
    SurvivesExactly(copies, made, keep);
    DoomedIsPart(copies + [made], keep);
    var doomed := Doomed(copies + [made], keep);
    assert made.name in Names(doomed) <==> made in doomed by {
      forall i | 0 <= i < |doomed| && doomed[i].name == made.name ensures doomed[i] == made {
        assert doomed[i] in doomed;
        assert doomed[i] in copies + [made];
      }
      if made in doomed {
        var i :| 0 <= i < |doomed| && doomed[i] == made;
        assert doomed[i].name in Names(doomed);
      }
    }
  }

  /** With a stamp no earlier than any copy's, and at least one copy kept, they always survive. */
  lemma BytesSurvive(files: Files, leaf: string, stamp: string, keep: int, listing: seq<string>, stuck: set<string>)
    requires leaf in files && Made(leaf, stamp, Copies(files, leaf, listing)).name !in files
    requires keep >= 1
    requires forall i :: 0 <= i < |Copies(files, leaf, listing)| ==>
      !Less(stamp, Copies(files, leaf, listing)[i].key.stamp)
    ensures var made := Made(leaf, stamp, Copies(files, leaf, listing));
      var after := After(files, leaf, stamp, keep, listing, stuck);
      made.name in after && after[made.name] == files[leaf]
  {
    hide After, Copies;
    BytesSurviveExactly(files, leaf, stamp, keep, listing, stuck);
    NumberIsNew(Copies(files, leaf, listing), stamp);
    AboveNone(Copies(files, leaf, listing), Made(leaf, stamp, Copies(files, leaf, listing)).key);
  }

  /** Nothing that is neither the damaged file nor a copy of it is touched, and no other name appears. */
  lemma OthersUntouched(files: Files, leaf: string, stamp: string, keep: int, listing: seq<string>,
                        stuck: set<string>, name: string)
    requires leaf in files && Made(leaf, stamp, Copies(files, leaf, listing)).name !in files
    ensures var copies := Copies(files, leaf, listing);
      var after := After(files, leaf, stamp, keep, listing, stuck);
      && (name in files && name != leaf && name !in Names(copies) ==> name in after && after[name] == files[name])
      && (name in after && name !in files ==> name == Made(leaf, stamp, copies).name)
      && (name in after && name in files ==> after[name] == files[name])
  {
    hide Made, Doomed, Copies;
    var copies := Copies(files, leaf, listing);
    var made := Made(leaf, stamp, copies);
    DoomedIsPart(copies + [made], keep);
    var doomed := Doomed(copies + [made], keep);
    if name in Names(doomed) {
      var i :| 0 <= i < |doomed| && doomed[i].name == name;
      assert doomed[i] in doomed;
      assert doomed[i] in copies + [made];
      if doomed[i] in copies {
        var k :| 0 <= k < |copies| && copies[k] == doomed[i];
        assert copies[k].name in Names(copies);
      }
    }
  }

  ghost predicate DistinctNames(copies: seq<Copy>)
  {
    forall i, j | 0 <= i < j < |copies| :: copies[i].name != copies[j].name
  }

  lemma {:induction false} NamesCount(copies: seq<Copy>)
    requires DistinctNames(copies)
    ensures |Names(copies)| == |copies|
  {
    if copies != [] {
      var n := |copies| - 1;
      NamesCount(copies[..n]);
      NamesNext(copies, n);
      assert copies[..n + 1] == copies;
      forall k | 0 <= k < n ensures copies[..n][k].name != copies[n].name { assert copies[..n][k] == copies[k]; }
    } else {
      assert Names(copies) == {};
    }
  }

  lemma {:induction false} SortedNamesDistinct(copies: seq<Copy>)
    requires DistinctNames(copies)
    ensures DistinctNames(StableSort(copies, ByKey()))
  {
    var sorted := StableSort(copies, ByKey());
    SortPermutes(copies, ByKey());
    MultisetMembers(sorted, copies);
    forall i, j | 0 <= i < j < |sorted| ensures sorted[i].name != sorted[j].name {
      assert sorted[i] in copies && sorted[j] in copies;
      var a :| 0 <= a < |copies| && copies[a] == sorted[i];
      var b :| 0 <= b < |copies| && copies[b] == sorted[j];
      if a == b { TwiceInMultiset(sorted, i, j); OnceWhenDistinct(copies, a); }
    }
  }

  lemma OnceWhenDistinct(copies: seq<Copy>, a: nat)
    requires DistinctNames(copies) && a < |copies|
    ensures multiset(copies)[copies[a]] == 1
  {
    assert copies == copies[..a] + [copies[a]] + copies[a + 1..];
    forall i | 0 <= i < |copies| && i != a ensures copies[i] != copies[a] { }
    assert copies[a] !in copies[..a] && copies[a] !in copies[a + 1..];
  }

  /** When every removal succeeds, the copies left are exactly the newest: as many as may be kept, and
      no removed one newer than a kept one (NewestAreKept). */
  lemma CopiesLeft(files: Files, leaf: string, stamp: string, keep: int, listing: seq<string>)
    requires leaf in files && NoRepeats(listing) && Made(leaf, stamp, Copies(files, leaf, listing)).name !in files
    ensures var all := Copies(files, leaf, listing) + [Made(leaf, stamp, Copies(files, leaf, listing))];
      var after := After(files, leaf, stamp, keep, listing, {});
      && Names(all) * after.Keys == Names(Survivors(all, keep))
      && |Names(all) * after.Keys| == if Kept(keep) < |all| then Kept(keep) else |all|
  {
    hide Made, Doomed, Survivors, Copies;
    var copies := Copies(files, leaf, listing);
    var made := Made(leaf, stamp, copies);
    var all := copies + [made];
    CopiesAreFiles(files, leaf, listing);
    assert DistinctNames(all);
    SortedNamesDistinct(all);
    Parted(all, keep);
    DoomedIsPart(all, keep);
    LeftNames(all, Doomed(all, keep), Survivors(all, keep), StableSort(all, ByKey()));
    NamesCount(Survivors(all, keep));
    assert Names(all) <= files.Keys - {leaf} + {made.name};
  }

  lemma LeftNames(all: seq<Copy>, doomed: seq<Copy>, left: seq<Copy>, sorted: seq<Copy>)
    requires sorted == doomed + left && DistinctNames(sorted)
    requires forall c :: c in doomed || c in left <==> c in all
    ensures DistinctNames(left) && Names(all) - Names(doomed) == Names(left)
  {
    forall i, j | 0 <= i < j < |left| ensures left[i].name != left[j].name {
      assert sorted[|doomed| + i] == left[i] && sorted[|doomed| + j] == left[j];
    }
    forall i, j | 0 <= i < |doomed| && 0 <= j < |left| ensures doomed[i].name != left[j].name {
      assert sorted[i] == doomed[i] && sorted[|doomed| + j] == left[j];
    }
    forall x ensures x in Names(all) - Names(doomed) <==> x in Names(left) {
      if x in Names(all) - Names(doomed) {
        var i :| 0 <= i < |all| && all[i].name == x;
        assert all[i] in all;
        forall k | 0 <= k < |doomed| ensures doomed[k] != all[i] { assert doomed[k].name in Names(doomed); }
        var k :| 0 <= k < |left| && left[k] == all[i];
        assert left[k].name in Names(left);
      }
      if x in Names(left) {
        var j :| 0 <= j < |left| && left[j].name == x;
        assert left[j] in left;
        var k :| 0 <= k < |all| && all[k] == left[j];
        assert all[k].name in Names(all);
      }
    }
  }

  /** The name made is read back, by a later run, as the key it was made with. */
  lemma MadeReadsBack(leaf: string, stamp: string, n: nat)
    requires |stamp| == STAMP_CHARS && 1 <= n <= 99
    ensures BadPrefix(leaf) <= TargetName(leaf, stamp, n)
    ensures KeyOf(TargetName(leaf, stamp, n)[|BadPrefix(leaf)|..]) == Some(CopyKey(stamp, n))
  {
    hide BadPrefix;
    var rest := stamp + (if n == 1 then "" else "-" + Decimal(n));
    assert TargetName(leaf, stamp, n) == BadPrefix(leaf) + rest;
    assert TargetName(leaf, stamp, n)[|BadPrefix(leaf)|..] == rest;
    assert rest[..STAMP_CHARS] == stamp;
    if n == 1 {
      assert rest == stamp;
    } else {
      assert rest[STAMP_CHARS + 1..] == Decimal(n);
      ValueOfDecimal(n);
    }
  }

  /** A clock set back loses the file: with one copy kept and that one stamped a year later, the copy
      just made is the one pruned, and the damaged bytes are nowhere. */
  lemma ClockSetBackLosesTheBytes()
    ensures var files: Files := map["c" := Regular([1]), "c.bad-20270101-000000" := Regular([2])];
      var after := After(files, "c", "20260101-000000", 1, ["c", "c.bad-20270101-000000"], {});
      after == map["c.bad-20270101-000000" := Regular([2])]
  {
    hide Copies, Made, Doomed, BadPrefix;
    var files: Files := map["c" := Regular([1]), "c.bad-20270101-000000" := Regular([2])];
    var late := Copy(CopyKey("20270101-000000", 1), "c.bad-20270101-000000");
    var made := Copy(CopyKey("20260101-000000", 1), BadPrefix("c") + "20260101-000000");
    OneOldCopy(files, late);
    assert late.key.stamp != made.key.stamp by { assert late.key.stamp[3] == '7' && made.key.stamp[3] == '6'; }
    MadeFirst("c", "20260101-000000", [late]);
    EarlierIsDoomed(late, made);
    OneName(made);
    DifferentNames();
  }

  /** Nor does it take a clock. Any 15 characters after the prefix pass for a stamp, and letters sort above
      digits: as many such names as copies may be kept push the copy just made out. */
  lemma LetteredNamesLoseTheBytes(files: Files, leaf: string, stamp: string, keep: int, listing: seq<string>)
    requires leaf in files && Made(leaf, stamp, Copies(files, leaf, listing)).name !in files
    requires stamp != "" && IsDigit(stamp[0]) && |Copies(files, leaf, listing)| >= Kept(keep)
    requires forall i :: 0 <= i < |Copies(files, leaf, listing)| ==>
      var other := Copies(files, leaf, listing)[i].key.stamp;
      other != "" && other[0] > '9'
    ensures Made(leaf, stamp, Copies(files, leaf, listing)).name !in After(files, leaf, stamp, keep, listing, {})
  {
    hide After, Copies, Above;
    var copies := Copies(files, leaf, listing);
    var made := Made(leaf, stamp, copies);
    BytesSurviveExactly(files, leaf, stamp, keep, listing, {});
    forall i | 0 <= i < |copies| ensures KeyLess(made.key, copies[i].key) { }
    AboveAll(copies, made.key);
  }

  /** A copy there before is gone afterwards, when it can be removed, exactly when at least `keep` of all
      the copies, the one just made among them, are newer. */
  lemma OldCopyGoesExactly(files: Files, leaf: string, stamp: string, keep: int, listing: seq<string>, m: nat)
    requires leaf in files && NoRepeats(listing) && Made(leaf, stamp, Copies(files, leaf, listing)).name !in files
    requires m < |Copies(files, leaf, listing)| && OwnKey(Copies(files, leaf, listing), m)
    ensures var copies := Copies(files, leaf, listing);
      var all := copies + [Made(leaf, stamp, copies)];
      copies[m].name !in After(files, leaf, stamp, keep, listing, {}) <==> Above(all, copies[m].key) >= Kept(keep)
  {
    hide Above, Made, Doomed, Copies;
    var copies := Copies(files, leaf, listing);
    var made := Made(leaf, stamp, copies);
    var all := copies + [made];
    MadeIsNew(files, leaf, stamp, listing);
    CopiesAreFiles(files, leaf, listing);
    GoneExactly(all, m, keep);
    DoomedIsPart(all, keep);
    var doomed := Doomed(all, keep);
    assert copies[m].name in Names(doomed) <==> copies[m] in doomed by {
      forall i | 0 <= i < |doomed| && doomed[i].name == copies[m].name ensures doomed[i] == copies[m] {
        assert doomed[i] in doomed;
        assert doomed[i] in all && all[m] == copies[m];
      }
      if copies[m] in doomed {
        var i :| 0 <= i < |doomed| && doomed[i] == copies[m];
        assert doomed[i].name in Names(doomed);
      }
    }
  }

  /** So a file no run ever made is pruned as if it were a copy: with enough real ones, any whose 15
      characters after the prefix sort below a digit. */
  lemma LowNameIsPruned(files: Files, leaf: string, stamp: string, keep: int, listing: seq<string>, m: nat)
    requires leaf in files && NoRepeats(listing) && Made(leaf, stamp, Copies(files, leaf, listing)).name !in files
    requires m < |Copies(files, leaf, listing)| && |Copies(files, leaf, listing)| >= Kept(keep)
    requires var low := Copies(files, leaf, listing)[m].key.stamp; low != "" && low[0] < '0'
    requires stamp != "" && IsDigit(stamp[0])
    requires forall i :: 0 <= i < |Copies(files, leaf, listing)| && i != m ==>
      var other := Copies(files, leaf, listing)[i].key.stamp;
      other != "" && IsDigit(other[0])
    ensures Copies(files, leaf, listing)[m].name in files
    ensures Copies(files, leaf, listing)[m].name !in After(files, leaf, stamp, keep, listing, {})
  {
    hide After, Copies, Above;
    var copies := Copies(files, leaf, listing);
    var all := copies + [Made(leaf, stamp, copies)];
    CopiesAreFiles(files, leaf, listing);
    OldCopyGoesExactly(files, leaf, stamp, keep, listing, m);
    var key := copies[m].key;
    var others := all[..m] + all[m + 1..];
    forall i | 0 <= i < |others| ensures KeyLess(key, others[i].key) { }
    AboveAll(others, key);
    AboveWithout(all, m, key);
  }

  lemma OneName(c: Copy)
    ensures Names([c]) == {c.name}
  {
    assert [c][0].name == c.name;
  }

  lemma DifferentNames()
    ensures BadPrefix("c") + "20260101-000000" != "c.bad-20270101-000000"
    ensures BadPrefix("c") + "20260101-000000" != "c"
  {
    assert (BadPrefix("c") + "20260101-000000")[9] == '6' && "c.bad-20270101-000000"[9] == '7';
  }

  lemma MadeFirst(leaf: string, stamp: string, copies: seq<Copy>)
    requires |copies| == 1 && copies[0].key.stamp != stamp
    ensures Made(leaf, stamp, copies) == Copy(CopyKey(stamp, 1), BadPrefix(leaf) + stamp)
  {
    hide BadPrefix;
    assert copies[..|copies| - 1] == [];
    assert NextNumber([], stamp) == 1;
    assert NextNumber(copies, stamp) == 1;
    assert BadPrefix(leaf) + stamp + "" == BadPrefix(leaf) + stamp;
  }

  lemma EarlierIsDoomed(late: Copy, made: Copy)
    requires late.key == CopyKey("20270101-000000", 1) && made.key == CopyKey("20260101-000000", 1)
    ensures Doomed([late] + [made], 1) == [made]
  {
    hide StableSort, Less;
    EarlierStamp();
    assert [late] + [made] == [late, made];
    SwappedWhenLess(late, made, ByKey());
  }

  lemma EarlierStamp()
    ensures Less("20260101-000000", "20270101-000000") && !Less("20270101-000000", "20260101-000000")
  {
    var a, b := "20260101-000000", "20270101-000000";
    assert a[1..][1..][1..][0] == '6' && b[1..][1..][1..][0] == '7';
    LessIsAsymmetric(a, b);
    assert Less(a[1..][1..][1..], b[1..][1..][1..]);
    assert Less(a[1..][1..], b[1..][1..]);
    assert Less(a[1..], b[1..]);
  }

  lemma OneOldCopy(files: Files, late: Copy)
    requires files == map["c" := Regular([1]), "c.bad-20270101-000000" := Regular([2])]
    requires late == Copy(CopyKey("20270101-000000", 1), "c.bad-20270101-000000")
    ensures Copies(files, "c", ["c", "c.bad-20270101-000000"]) == [late]
  {
    var listing := ["c", "c.bad-20270101-000000"];
    assert listing[..1] == ["c"] && ["c"][..0] == [];
    assert CopyOf(files, "c", "c") == None;
    assert BadPrefix("c") == "c.bad-";
    assert "c.bad-20270101-000000"[6..] == "20270101-000000";
    assert CopyOf(files, "c", "c.bad-20270101-000000") == Some(late);
    assert Copies(files, "c", ["c"]) == [];
  }
}
