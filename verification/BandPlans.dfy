/** Choosing a band plan: the chain of plans it refines, followed through `base`, merged baseline
    first, sorted, and committed only when everything succeeded. */
module BandPlans {
  import opened Sorting
  import opened Texts
  import opened Wrappers

  datatype Band = Band(startHz: real, endHz: real, name: string, service: string)

  /** What loading a plan file gives. */
  datatype Contents = Contents(name: string, bands: seq<Band>)

  /** A plan file: whether it parses when the directory is listed, and with what id, name and base; and
      what it parses to when it is loaded, if it does, for the file is read again then. */
  datatype PlanFile =
    PlanFile(path: string, id: string, name: string, base: string, parses: bool, again: Option<Contents>)
  {
    function Bands(): seq<Band> { if again.Some? then again.value.bands else [] }
    function NameNow(): string { if again.Some? then again.value.name else "" }
  }

  datatype Directory = Directory(exists_: bool, lists: bool, files: seq<PlanFile>)

  datatype Outcome =
    Loaded | NotADirectory | CannotList | NoPlan(id: string) | Circular(id: string) | BadFile(path: string)

  // ----- orders -----------------------------------------------------------------------------

  function ByPath(): (PlanFile, PlanFile) -> bool { (a: PlanFile, b: PlanFile) => Less(a.path, b.path) }

  function ByName(): (PlanFile, PlanFile) -> bool
  {
    (a: PlanFile, b: PlanFile) => if a.name != b.name then Less(a.name, b.name) else Less(a.id, b.id)
  }

  /** The one ordering rule of entries: by start, and widest first on equal starts. */
  function ByStart(): (Band, Band) -> bool
  {
    (a: Band, b: Band) => if a.startHz != b.startHz then a.startHz < b.startHz else a.endHz > b.endHz
  }

  function SortEntries(v: seq<Band>): seq<Band> { StableSort(v, ByStart()) }

  predicate StrictlyContains(a: Band, b: Band)
  {
    a.startHz <= b.startHz && b.endHz <= a.endHz && (a.startHz != b.startHz || a.endHz != b.endHz)
  }

  /** Sorted entries are a back-to-front draw order: a containing band comes before what it contains;
      and nothing is lost or added by sorting. */
  lemma ContainingComesFirst(v: seq<Band>)
    ensures multiset(SortEntries(v)) == multiset(v)
    ensures forall i, j :: 0 <= i < j < |SortEntries(v)| ==> !StrictlyContains(SortEntries(v)[j], SortEntries(v)[i])
  {
    SortPermutes(v, ByStart());
    SortSorts(v, ByStart());
    var s := SortEntries(v);
    forall i, j | 0 <= i < j < |s| ensures !StrictlyContains(s[j], s[i]) {
      assert !ByStart()(s[j], s[i]);
    }
  }

  /** The order itself: starts ascend, and on equal starts ends descend. */
  lemma StartsAscend(v: seq<Band>)
    ensures forall i, j :: 0 <= i < j < |SortEntries(v)| ==>
      var a, b := SortEntries(v)[i], SortEntries(v)[j];
      a.startHz < b.startHz || (a.startHz == b.startHz && a.endHz >= b.endHz)
  {
    SortSorts(v, ByStart());
    var s := SortEntries(v);
    forall i, j | 0 <= i < j < |s|
      ensures s[i].startHz < s[j].startHz || (s[i].startHz == s[j].startHz && s[i].endHz >= s[j].endHz)
    {
      assert !ByStart()(s[j], s[i]);
    }
  }

  // ----- the chain --------------------------------------------------------------------------

  function Listed(files: seq<PlanFile>): seq<PlanFile>
  {
    if files == [] then []
    else (if files[0].parses then [files[0]] else []) + Listed(files[1..])
  }

  /** The picker's plans: those that parse, by display name. */
  function Available(dir: Directory): seq<PlanFile>
  {
    if dir.exists_ && dir.lists then StableSort(Listed(dir.files), ByName()) else []
  }

  lemma {:induction false} ListedParse(files: seq<PlanFile>)
    ensures forall f :: f in Listed(files) <==> f in files && f.parses
  {
    if files != [] { ListedParse(files[1..]); }
  }

  /** The picker shows exactly the plans that parse, by name, and by id where names are equal. */
  lemma PickerOrder(dir: Directory)
    ensures forall f :: f in Available(dir) <==> dir.exists_ && dir.lists && f in dir.files && f.parses
    ensures forall i, j :: 0 <= i < j < |Available(dir)| ==>
      var a, b := Available(dir)[i], Available(dir)[j];
      Less(a.name, b.name) || (a.name == b.name && (Less(a.id, b.id) || a.id == b.id))
  {
    var listed, plans := Listed(dir.files), Available(dir);
    ListedParse(dir.files);
    if dir.exists_ && dir.lists {
      SortPermutes(listed, ByName());
      MultisetMembers(plans, listed);
      NamesDecide();
      SortSorts(listed, ByName());
      forall i, j | 0 <= i < j < |plans|
        ensures Less(plans[i].name, plans[j].name) ||
          (plans[i].name == plans[j].name && (Less(plans[i].id, plans[j].id) || plans[i].id == plans[j].id))
      {
        assert !ByName()(plans[j], plans[i]);
        LessIsTotal(plans[i].name, plans[j].name);
        LessIsTotal(plans[i].id, plans[j].id);
      }
    }
  }

  lemma NamesDecide()
    ensures StrictWeakOrder(ByName()) && StrictWeakOrder(ByPath())
  {
    forall a: string, b: string ensures Less(a, b) ==> !Less(b, a) { LessIsAsymmetric(a, b); }
    forall a: string, b: string, c: string ensures Less(a, b) ==> Less(a, c) || Less(c, b) {
      LessIsTotal(a, c);
      LessIsTransitive(c, a, b);
    }
    forall a: PlanFile, b: PlanFile, c: PlanFile | ByName()(a, b) ensures ByName()(a, c) || ByName()(c, b) {
      if a.name == b.name { LessIsTotal(a.name, c.name); }
    }
  }

  /** The first plan with this id; the number of plans when there is none. */
  function Find(plans: seq<PlanFile>, id: string): (i: nat)
    ensures i <= |plans| && (i < |plans| ==> plans[i].id == id)
    ensures forall k :: 0 <= k < i ==> plans[k].id != id
  {
    if plans == [] || plans[0].id == id then 0 else 1 + Find(plans[1..], id)
  }

  ghost predicate Distinct(plans: seq<PlanFile>, chain: seq<nat>)
  {
    && (forall k :: 0 <= k < |chain| ==> chain[k] < |plans|)
    && forall j, k :: 0 <= j < k < |chain| ==> plans[chain[j]].id != plans[chain[k]].id
  }

  lemma {:induction false} Pigeonhole(chain: seq<nat>, n: nat)
    requires forall k :: 0 <= k < |chain| ==> chain[k] < n
    requires forall j, k :: 0 <= j < k < |chain| ==> chain[j] != chain[k]
    ensures |chain| <= n
  {
    var first := if chain == [] then 0 else chain[0];
    if chain == [] {
    } else if n == 0 {
      assert false;
    } else if k :| 0 <= k < |chain| && chain[k] == n - 1 {
      Pigeonhole(chain[..k] + chain[k + 1..], n - 1);
    } else {
      Pigeonhole(chain, n - 1);
    }
  }

  lemma ChainFits(plans: seq<PlanFile>, chain: seq<nat>)
    requires Distinct(plans, chain)
    ensures |chain| <= |plans|
  {
    Pigeonhole(chain, |plans|);
  }

  datatype Walked = Chain(chain: seq<nat>) | Failed(why: Outcome)

  predicate Seen(plans: seq<PlanFile>, chain: seq<nat>, id: string)
    requires forall k :: 0 <= k < |chain| ==> chain[k] < |plans|
  {
    exists k :: 0 <= k < |chain| && plans[chain[k]].id == id
  }

  /** Follows `base` upwards; it ends because the plans not yet in the chain become fewer. */
  function Walk(plans: seq<PlanFile>, want: string, chain: seq<nat>): Walked
    requires Distinct(plans, chain)
    decreases |plans| - |chain|
  {
    if want == "" then Chain(chain)
    else
      var i := Find(plans, want);
      if i == |plans| then Failed(NoPlan(want))
      else if Seen(plans, chain, plans[i].id) then Failed(Circular(plans[i].id))
      else
        ChainFits(plans, chain + [i]);
        Walk(plans, plans[i].base, chain + [i])
  }

  /** What a resolved selection is, said without walking: each plan is the one its predecessor names as
      its base, the first is the one selected, and the last names none. */
  ghost predicate IsChain(plans: seq<PlanFile>, id: string, chain: seq<nat>)
  {
    && chain != []
    && (forall k :: 0 <= k < |chain| ==> chain[k] < |plans|)
    && chain[0] == Find(plans, id)
    && (forall k :: 0 <= k < |chain| - 1 ==>
          plans[chain[k]].base != "" && chain[k + 1] == Find(plans, plans[chain[k]].base))
    && plans[chain[|chain| - 1]].base == ""
  }

  lemma ChainMember(plans: seq<PlanFile>, id: string, chain: seq<nat>, k: nat)
    requires IsChain(plans, id, chain) && k < |chain|
    ensures chain[k] == Find(plans, plans[chain[k]].id)
  {
    if k > 0 { assert chain[(k - 1) + 1] == Find(plans, plans[chain[k - 1]].base); }
  }

  /** A chain that reaches an empty base never repeats a plan: it would otherwise go round for ever. */
  lemma {:induction false} ChainStaysEqual(plans: seq<PlanFile>, id: string, chain: seq<nat>, i: nat, j: nat, d: nat)
    requires IsChain(plans, id, chain) && i < j && j + d < |chain| && chain[i] == chain[j]
    ensures chain[i + d] == chain[j + d]
  {
    if d > 0 {
      ChainStaysEqual(plans, id, chain, i, j, d - 1);
      assert chain[(i + d - 1) + 1] == Find(plans, plans[chain[i + d - 1]].base);
      assert chain[(j + d - 1) + 1] == Find(plans, plans[chain[j + d - 1]].base);
    }
  }

  lemma ChainIsDistinct(plans: seq<PlanFile>, id: string, chain: seq<nat>)
    requires IsChain(plans, id, chain)
    ensures Distinct(plans, chain)
  {
    forall i, j | 0 <= i < j < |chain| ensures plans[chain[i]].id != plans[chain[j]].id {
      ChainMember(plans, id, chain, i);
      ChainMember(plans, id, chain, j);
      var d := |chain| - 1 - j;
      assert plans[chain[i + d]].base != "";
      if chain[i] == chain[j] {
        ChainStaysEqual(plans, id, chain, i, j, d);
        assert false;
      }
    }
  }

  /** Walking a real chain succeeds, from any place on it. */
  lemma {:induction false} WalkFollows(plans: seq<PlanFile>, id: string, chain: seq<nat>, k: nat)
    requires IsChain(plans, id, chain) && id != "" && k <= |chain| && Distinct(plans, chain[..k])
    ensures Walk(plans, Wanted(plans, id, chain, k), chain[..k]) == Chain(chain)
    decreases |chain| - k
  {
    if k == |chain| {
      assert chain[..k] == chain;
    } else {
      ChainIsDistinct(plans, id, chain);
      var want := Wanted(plans, id, chain, k);
      if k > 0 { assert chain[(k - 1) + 1] == Find(plans, plans[chain[k - 1]].base); }
      assert want != "" && Find(plans, want) == chain[k];
      assert !Seen(plans, chain[..k], plans[chain[k]].id);
      assert chain[..k] + [chain[k]] == chain[..k + 1];
      ChainFits(plans, chain[..k + 1]);
      WalkFollows(plans, id, chain, k + 1);
    }
  }

  /** What is wanted once the first k of the chain are found. */
  function Wanted(plans: seq<PlanFile>, id: string, chain: seq<nat>, k: nat): string
    requires k <= |chain| && forall n :: 0 <= n < |chain| ==> chain[n] < |plans|
  {
    if k == 0 then id else plans[chain[k - 1]].base
  }

  /** The part of a walk already done links up. */
  ghost predicate Linked(plans: seq<PlanFile>, id: string, want: string, chain: seq<nat>)
  {
    && Distinct(plans, chain)
    && want == Wanted(plans, id, chain, |chain|)
    && (forall k :: 0 <= k < |chain| ==>
          Wanted(plans, id, chain, k) != "" && chain[k] == Find(plans, Wanted(plans, id, chain, k)))
  }

  lemma {:induction false} WalkBuilds(plans: seq<PlanFile>, id: string, want: string, chain: seq<nat>)
    requires id != "" && Linked(plans, id, want, chain) && Walk(plans, want, chain).Chain?
    ensures IsChain(plans, id, Walk(plans, want, chain).chain)
    decreases |plans| - |chain|
  {
    hide Linked, IsChain, Find;
    if want == "" {
      LinkedIsChain(plans, id, chain);
    } else {
      var i := Find(plans, want);
      LinkedNext(plans, id, want, chain);
      ChainFits(plans, chain + [i]);
      WalkBuilds(plans, id, plans[i].base, chain + [i]);
    }
  }

  lemma LinkedIsChain(plans: seq<PlanFile>, id: string, chain: seq<nat>)
    requires id != "" && Linked(plans, id, "", chain)
    ensures IsChain(plans, id, chain)
  {
    hide Find;
    forall k | 0 <= k < |chain| - 1
      ensures plans[chain[k]].base != "" && chain[k + 1] == Find(plans, plans[chain[k]].base)
    {
      assert Wanted(plans, id, chain, k + 1) == plans[chain[k]].base;
    }
    assert chain[0] == Find(plans, Wanted(plans, id, chain, 0));
  }

  lemma DistinctNext(plans: seq<PlanFile>, chain: seq<nat>, i: nat)
    requires Distinct(plans, chain) && i < |plans| && !Seen(plans, chain, plans[i].id)
    ensures Distinct(plans, chain + [i])
  {
  }

  lemma LinkedNext(plans: seq<PlanFile>, id: string, want: string, chain: seq<nat>)
    requires Linked(plans, id, want, chain) && want != "" && Find(plans, want) < |plans|
    requires !Seen(plans, chain, want)
    ensures Linked(plans, id, plans[Find(plans, want)].base, chain + [Find(plans, want)])
    ensures Distinct(plans, chain + [Find(plans, want)])
  {
    hide Find, Distinct, Seen, Wanted, Linked;
    var i := Find(plans, want);
    LinkedMeans(plans, id, want, chain);
    DistinctNext(plans, chain, i);
    InRange(plans, chain + [i]);
    forall k | 0 <= k <= |chain|
      ensures Wanted(plans, id, chain + [i], k) != ""
      ensures (chain + [i])[k] == Find(plans, Wanted(plans, id, chain + [i], k))
    {
      WantedBefore(plans, id, chain, i, k);
      assert (chain + [i])[k] == if k < |chain| then chain[k] else i;
    }
    WantedLast(plans, id, chain, i);
    LinkedIs(plans, id, plans[i].base, chain + [i]);
  }

  lemma LinkedMeans(plans: seq<PlanFile>, id: string, want: string, chain: seq<nat>)
    requires Linked(plans, id, want, chain)
    ensures Distinct(plans, chain) && forall k :: 0 <= k < |chain| ==> chain[k] < |plans|
    ensures want == Wanted(plans, id, chain, |chain|)
    ensures forall k :: 0 <= k < |chain| ==>
      Wanted(plans, id, chain, k) != "" && chain[k] == Find(plans, Wanted(plans, id, chain, k))
  {
    hide Find, Wanted;
  }

  lemma LinkedIs(plans: seq<PlanFile>, id: string, want: string, chain: seq<nat>)
    requires Distinct(plans, chain) && forall k :: 0 <= k < |chain| ==> chain[k] < |plans|
    requires want == Wanted(plans, id, chain, |chain|)
    requires forall k :: 0 <= k < |chain| ==>
      Wanted(plans, id, chain, k) != "" && chain[k] == Find(plans, Wanted(plans, id, chain, k))
    ensures Linked(plans, id, want, chain)
  {
    hide Find, Wanted, Distinct;
  }

  lemma WantedLast(plans: seq<PlanFile>, id: string, chain: seq<nat>, i: nat)
    requires i < |plans| && forall n :: 0 <= n < |chain| ==> chain[n] < |plans|
    ensures Wanted(plans, id, chain + [i], |chain| + 1) == plans[i].base
  {
  }

  lemma InRange(plans: seq<PlanFile>, chain: seq<nat>)
    requires Distinct(plans, chain)
    ensures forall k :: 0 <= k < |chain| ==> chain[k] < |plans|
  {
  }

  lemma WantedBefore(plans: seq<PlanFile>, id: string, chain: seq<nat>, i: nat, k: nat)
    requires k <= |chain| && i < |plans| && forall n :: 0 <= n < |chain| ==> chain[n] < |plans|
    ensures Wanted(plans, id, chain + [i], k) == Wanted(plans, id, chain, k)
  {
  }

  /** The walk succeeds exactly when following `base` from the selection reaches a plan that names
      none, and what it returns is that one chain: a cycle is reported, never cut short. */
  lemma WalkIsExact(plans: seq<PlanFile>, id: string)
    requires id != ""
    ensures Walk(plans, id, []).Chain? <==> exists chain :: IsChain(plans, id, chain)
    ensures Walk(plans, id, []).Chain? ==> IsChain(plans, id, Walk(plans, id, []).chain)
    ensures forall chain :: IsChain(plans, id, chain) ==> Walk(plans, id, []) == Chain(chain)
  {
    forall chain | IsChain(plans, id, chain) ensures Walk(plans, id, []) == Chain(chain) {
      assert chain[..0] == [];
      WalkFollows(plans, id, chain, 0);
    }
    if Walk(plans, id, []).Chain? {
      WalkBuilds(plans, id, id, []);
    }
  }

  // ----- the bands --------------------------------------------------------------------------

  /** The chain's bands, baseline first. */
  function Merged(plans: seq<PlanFile>, chain: seq<nat>): seq<Band>
    requires forall k :: 0 <= k < |chain| ==> chain[k] < |plans|
  {
    if chain == [] then [] else Merged(plans, chain[1..]) + plans[chain[0]].Bands()
  }

  function Plus(joined: string, name: string): string
  {
    if joined == "" then name else joined + " + " + name
  }

  function JoinedNames(plans: seq<PlanFile>, chain: seq<nat>): string
    requires forall k :: 0 <= k < |chain| ==> chain[k] < |plans|
  {
    if chain == [] then "" else Plus(JoinedNames(plans, chain[1..]), plans[chain[0]].NameNow())
  }

  predicate AllReparse(plans: seq<PlanFile>, chain: seq<nat>)
    requires forall k :: 0 <= k < |chain| ==> chain[k] < |plans|
  {
    forall k :: 0 <= k < |chain| ==> plans[chain[k]].again.Some?
  }

  /** The k-th plan of the chain is the first, from the baseline down, that does not parse. */
  predicate FirstBad(plans: seq<PlanFile>, chain: seq<nat>, k: nat, path: string)
    requires k < |chain| && forall j :: 0 <= j < |chain| ==> chain[j] < |plans|
  {
    !plans[chain[k]].again.Some? && path == plans[chain[k]].path && AllReparse(plans, chain[k + 1..])
  }

  /** The selection resolves: its chain of bases ends, and every file of it parses. */
  ghost predicate Selects(dir: Directory, id: string, chain: seq<nat>)
  {
    dir.exists_ && IsChain(Available(dir), id, chain) && AllReparse(Available(dir), chain)
  }

  function Upto(n: nat): (s: seq<nat>)
    ensures |s| == n && forall i :: 0 <= i < n ==> s[i] == n - 1 - i
  {
    seq(n, i requires 0 <= i < n => n - 1 - i)
  }

  class BandPlan {
    var entries: seq<Band>
    var name: string

    constructor ()
      ensures entries == [] && name == ""
    {
      entries, name := [], "";
    }

    /** Merges a chain from its baseline down: all of it, or nothing. */
    method Merge(plans: seq<PlanFile>, chain: seq<nat>) returns (r: Outcome)
      requires forall k :: 0 <= k < |chain| ==> chain[k] < |plans|
      modifies this
      ensures r == Loaded <==> AllReparse(plans, chain)
      ensures r == Loaded ==> entries == SortEntries(Merged(plans, chain)) && name == JoinedNames(plans, chain)
      ensures r != Loaded ==> unchanged(this) && r.BadFile?
      ensures r.BadFile? ==> exists k :: 0 <= k < |chain| && FirstBad(plans, chain, k, r.path)
    {
      var merged: seq<Band> := [];
      var joined := "";
      var k := |chain|;
      while k > 0
        invariant 0 <= k <= |chain|
        invariant merged == Merged(plans, chain[k..]) && joined == JoinedNames(plans, chain[k..])
        invariant forall j :: k <= j < |chain| ==> plans[chain[j]].again.Some?
      {
        k := k - 1;
        assert chain[k..][1..] == chain[k + 1..];
        var info := plans[chain[k]];
        if !info.again.Some? {
          assert FirstBad(plans, chain, k, info.path);
          return BadFile(info.path);
        }
        merged := merged + info.again.value.bands;
        if joined != "" { joined := joined + " + "; }
        joined := joined + info.again.value.name;
      }
      assert chain[0..] == chain;
      entries := SortEntries(merged);
      name := joined;
      return Loaded;
    }

    /** Every file of the directory, in path order. */
    method LoadDirectory(dir: Directory) returns (r: Outcome)
      modifies this
      ensures r == Loaded <==> dir.exists_ && dir.lists && forall f :: f in dir.files ==> f.again.Some?
      ensures r == Loaded ==> entries == SortEntries(BandsOf(InPathOrder(dir))) && name == NamesOf(InPathOrder(dir))
      ensures r != Loaded ==> unchanged(this)
      ensures !dir.exists_ ==> r == NotADirectory
      ensures dir.exists_ && !dir.lists ==> r == CannotList
      ensures dir.exists_ && dir.lists && r != Loaded ==> r.BadFile? && IsFirstBad(InPathOrder(dir), r.path)
    {
      if !dir.exists_ { return NotADirectory; }
      if !dir.lists { return CannotList; }
      hide Merged, JoinedNames, BandsOf, NamesOf, SortEntries, FirstBad, IsFirstBad, AllReparse;
      var files := InPathOrder(dir);
      r := Merge(files, Upto(|files|));
      MergedIsBandsOf(files, |files|);
      JoinedIsNamesOf(files, |files|);
      AllFilesReparse(dir.files, files);
      if r.BadFile? {
        ghost var k :| 0 <= k < |files| && FirstBad(files, Upto(|files|), k, r.path);
        FirstInOrder(files, k, r.path);
      }
    }

    method LoadSelection(dir: Directory, id: string) returns (r: Outcome)
      modifies this
      ensures id == "" ==> (r == Loaded <==> dir.exists_ && dir.lists && forall f :: f in dir.files ==> f.again.Some?)
      ensures id == "" && r == Loaded ==>
        entries == SortEntries(BandsOf(InPathOrder(dir))) && name == NamesOf(InPathOrder(dir))
      ensures id != "" ==> (r == Loaded <==> exists chain :: Selects(dir, id, chain))
      ensures forall chain :: id != "" && Selects(dir, id, chain) ==>
        entries == SortEntries(Merged(Available(dir), chain)) && name == JoinedNames(Available(dir), chain)
      ensures r != Loaded ==> unchanged(this)
      ensures !dir.exists_ ==> r == NotADirectory
      ensures id != "" && dir.exists_ && Walk(Available(dir), id, []).Failed? ==> r == Walk(Available(dir), id, []).why
    {
      if id == "" {
        r := LoadDirectory(dir);
        return;
      }
      hide Walk, IsChain, Available, Merged, JoinedNames, BandsOf, NamesOf, InPathOrder;
      if !dir.exists_ { return NotADirectory; }
      var plans := Available(dir);
      WalkIsExact(plans, id);
      var walked := FollowBase(plans, id);
      if walked.Failed? { return walked.why; }
      r := Merge(plans, walked.chain);
      assert r == Loaded ==> Selects(dir, id, walked.chain);
    }
  }

  method FollowBase(plans: seq<PlanFile>, id: string) returns (walked: Walked)
    ensures walked == Walk(plans, id, [])
    ensures walked.Chain? ==> Distinct(plans, walked.chain)
    ensures walked.Failed? ==> walked.why != Loaded
  {
    var chain: seq<nat> := [];
    var want := id;
    while want != ""
      invariant Distinct(plans, chain)
      invariant Walk(plans, want, chain) == Walk(plans, id, [])
      decreases |plans| - |chain|
    {
      var found := Find(plans, want);
      if found == |plans| { return Failed(NoPlan(want)); }
      if Seen(plans, chain, plans[found].id) { return Failed(Circular(plans[found].id)); }
      ChainFits(plans, chain + [found]);
      chain := chain + [found];
      want := plans[found].base;
    }
    return Chain(chain);
  }

  lemma AllFilesReparse(files: seq<PlanFile>, sorted: seq<PlanFile>)
    requires sorted == StableSort(files, ByPath())
    ensures AllReparse(sorted, Upto(|sorted|)) <==> forall f :: f in files ==> f.again.Some?
  {
    SortPermutes(files, ByPath());
    MultisetMembers(sorted, files);
    var order := Upto(|sorted|);
    forall f | f in sorted ensures exists k :: 0 <= k < |order| && sorted[order[k]] == f {
      var n :| 0 <= n < |sorted| && sorted[n] == f;
      assert sorted[order[|sorted| - 1 - n]] == f;
    }
    forall k | 0 <= k < |order| ensures sorted[order[k]] in files { }
  }

  function BandsOf(files: seq<PlanFile>): seq<Band>
  {
    if files == [] then [] else BandsOf(files[..|files| - 1]) + files[|files| - 1].Bands()
  }

  function NamesOf(files: seq<PlanFile>): string
  {
    if files == [] then "" else Plus(NamesOf(files[..|files| - 1]), files[|files| - 1].NameNow())
  }

  function InPathOrder(dir: Directory): seq<PlanFile> { StableSort(dir.files, ByPath()) }

  /** It holds the directory's files, each as often, their paths ascending. */
  lemma PathsAscend(dir: Directory)
    ensures multiset(InPathOrder(dir)) == multiset(dir.files)
    ensures forall i, j :: 0 <= i < j < |InPathOrder(dir)| ==>
      var a, b := InPathOrder(dir)[i], InPathOrder(dir)[j];
      Less(a.path, b.path) || a.path == b.path
  {
    var files := InPathOrder(dir);
    SortPermutes(dir.files, ByPath());
    NamesDecide();
    SortSorts(dir.files, ByPath());
    forall i, j | 0 <= i < j < |files| ensures Less(files[i].path, files[j].path) || files[i].path == files[j].path {
      assert !ByPath()(files[j], files[i]);
      LessIsTotal(files[i].path, files[j].path);
    }
  }

  /** The first file, in this order, that does not parse. */
  ghost predicate IsFirstBad(files: seq<PlanFile>, path: string)
  {
    exists k :: 0 <= k < |files| && !files[k].again.Some? && files[k].path == path &&
      forall j :: 0 <= j < k ==> files[j].again.Some?
  }

  lemma FirstInOrder(files: seq<PlanFile>, k: nat, path: string)
    requires k < |files| && FirstBad(files, Upto(|files|), k, path)
    ensures IsFirstBad(files, path)
  {
    var order := Upto(|files|);
    var i := |files| - 1 - k;
    forall j | 0 <= j < i ensures files[j].again.Some? {
      assert order[k + 1..][|files| - 1 - j - (k + 1)] == j;
    }
    assert !files[i].again.Some? && files[i].path == path;
  }

  lemma {:induction false} JoinedIsNamesOf(files: seq<PlanFile>, n: nat)
    requires n <= |files|
    ensures JoinedNames(files, Upto(n)) == NamesOf(files[..n])
    ensures n == |files| ==> JoinedNames(files, Upto(n)) == NamesOf(files)
  {
    hide Plus;
    if n > 0 {
      JoinedIsNamesOf(files, n - 1);
      assert Upto(n)[1..] == Upto(n - 1);
      assert files[..n][..n - 1] == files[..n - 1];
    }
    if n == |files| { assert files[..n] == files; }
  }

  lemma {:induction false} MergedIsBandsOf(files: seq<PlanFile>, n: nat)
    requires n <= |files|
    ensures Merged(files, Upto(n)) == BandsOf(files[..n])
    ensures n == |files| ==> Merged(files, Upto(n)) == BandsOf(files)
  {
    if n > 0 {
      MergedIsBandsOf(files, n - 1);
      assert Upto(n)[1..] == Upto(n - 1);
      assert files[..n][..n - 1] == files[..n - 1];
    }
    if n == |files| { assert files[..n] == files; }
  }

  // ----- looking a frequency up -------------------------------------------------------------

  predicate Covers(b: Band, hz: real) { b.startHz <= hz <= b.endHz }

  function Width(b: Band): real { b.endHz - b.startHz }

  /** The narrowest band at a frequency, the first of equals; none at one that is not finite. */
  method AtFrequency(entries: seq<Band>, at: Option<real>) returns (best: Option<nat>)
    ensures best.None? <==> at.None? || forall k :: 0 <= k < |entries| ==> !Covers(entries[k], at.value)
    ensures best.Some? ==> best.value < |entries| && Covers(entries[best.value], at.value)
    ensures best.Some? ==> forall k :: 0 <= k < |entries| && Covers(entries[k], at.value) ==>
      && Width(entries[best.value]) <= Width(entries[k])
      && !StrictlyContains(entries[best.value], entries[k])
      && (k < best.value ==> Width(entries[best.value]) < Width(entries[k]))
  {
    best := None;
    if at.None? { return; }
    var hz := at.value;
    for i := 0 to |entries|
      invariant best.None? <==> forall k :: 0 <= k < i ==> !Covers(entries[k], hz)
      invariant best.Some? ==> best.value < i && Covers(entries[best.value], hz)
      invariant best.Some? ==> forall k :: 0 <= k < i && Covers(entries[k], hz) ==>
        && Width(entries[best.value]) <= Width(entries[k])
        && (k < best.value ==> Width(entries[best.value]) < Width(entries[k]))
    {
      if !(hz < entries[i].startHz || hz > entries[i].endHz) {
        if best.None? || Width(entries[i]) < Width(entries[best.value]) { best := Some(i); }
      }
    }
  }
}
