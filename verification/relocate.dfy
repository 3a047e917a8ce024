/** Carrying one box's snapshot store to another key: each snapshot to a free name in the
    destination store, one move at a time, any of which may fail. */
module Relocate {
  import opened Options
  import opened Trees
  import opened Merge
  import opened Restore
  import opened FreeNames
  import Walk

  // --- stores and paths ----------------------------------------------------------------

  /** Where a store is: the path it is named by, and the resolved one, if it can be resolved. */
  datatype Spot = Spot(path: Path, resolved: Option<Path>)

  /** Two directories are one, however spelled, or one lies inside the other.  `same`: whether the system
      says they are one; none if it cannot. */
  predicate StoresOverlap(a: Spot, b: Spot, same: Option<bool>) {
    || a.path == b.path || same == Some(true)
    || (a.resolved.Some? && b.resolved.Some?
        && (a.resolved.value < b.resolved.value || b.resolved.value < a.resolved.value))
  }

  /** The path `p` is `dir` or below it. */
  predicate Below(dir: Path, p: Path) {
    dir <= p
  }

  /** Stores that can be resolved overlap iff some path is below both, but for one case: two spellings of
      one directory that the system does not say are one.  Of others only the spelling and the system's
      answer count. */
  lemma OverlapIsSharing(a: Spot, b: Spot, same: Option<bool>)
    requires a.path == b.path || same == Some(true) ==> a.resolved == b.resolved
    ensures a.resolved.Some? && b.resolved.Some? ==>
              (StoresOverlap(a, b, same) <==>
               && (exists p :: Below(a.resolved.value, p) && Below(b.resolved.value, p))
               && (a.resolved == b.resolved ==> a.path == b.path || same == Some(true)))
    ensures a.resolved.None? || b.resolved.None? ==>
              (StoresOverlap(a, b, same) <==> a.path == b.path || same == Some(true))
  {
    if a.resolved.Some? && b.resolved.Some? {
      SharingIs(a.resolved.value, b.resolved.value);
    }
  }

  lemma SharingIs(a: Path, b: Path)
    ensures a == b || a < b || b < a <==> exists p :: Below(a, p) && Below(b, p)
  {
    if a == b || a < b || b < a {
      var p := if Below(a, b) then b else a;
      assert Below(a, p) && Below(b, p);
    }
    if p :| Below(a, p) && Below(b, p) {
      var short := if |a| < |b| then |a| else |b|;
      assert a[..short] == p[..short] == b[..short];
    }
  }

  // --- moves ---------------------------------------------------------------------------

  /** What arrives of a tree: all of it, or, across devices, all but its special files. */
  function Arriving(w: World, n: Name, t: Tree): Option<Tree> {
    if w.across(n) then Carried(t) else Some(t)
  }

  /** The move of `t` to `d` is refused: a directory onto a link, or a special file across devices. */
  predicate MoveRefused(w: World, n: Name, t: Tree, dst: Kids, d: Name) {
    (t.DirT? && d in dst) || Arriving(w, n, t).None?
  }

  /** One entry moved to a name at which nothing was seen (the move of module Moves).  `landed`: it
      is whole at the destination; a failure after that leaves (some of) it at the source too. */
  method MoveEntry(f: Faults, w: World, src: Folder, n: Name, dst: Folder, d: Name)
    returns (ok: bool, ghost landed: bool)
    requires src != dst && n in src.kids && (d in dst.kids ==> dst.kids[d].LinkT?)
    modifies src`kids, dst`kids, f
    ensures old(f.seen) ==> f.seen
    ensures ok ==> landed && src.kids == old(src.kids) - {n}
    ensures !ok ==> f.seen || (!landed && MoveRefused(w, n, old(src.kids[n]), old(dst.kids), d))
    ensures src.kids - {n} == old(src.kids) - {n}
    ensures landed ==>
              && !MoveRefused(w, n, old(src.kids[n]), old(dst.kids), d)
              && dst.kids == old(dst.kids)[d := Arriving(w, n, old(src.kids[n])).value]
    ensures landed && !w.across(n) ==> dst.kids == old(dst.kids)[d := old(src.kids[n])]
    ensures !landed ==> src.kids == old(src.kids) && forall m | m in old(dst.kids) :: Has(dst.kids, old(dst.kids), m)
  {
    var t, was := src.kids[n], dst.kids;
    var junk: Kids := *;
    if * {
      f.seen := true;
      dst.kids := junk + was;
      return false, false;
    }
    if (t.DirT? && d in dst.kids) || Arriving(w, n, t).None? { return false, false; }
    dst.kids := was[d := Arriving(w, n, t).value];
    landed := true;
    ok := *;
    f.seen := f.seen || !ok;
    src.kids := src.kids - {n};
    if !ok && n in junk {
      src.kids := src.kids[n := junk[n]];
    }
  }

  // --- the merge of two stores ---------------------------------------------------------

  /** No move of the carried `names`, in their sorted order, lands on a name the destination holds at that
      moment, up to the first that is refused: the name it gets is really free, and not a link that leads
      nowhere, there before or carried before. */
  ghost predicate LandsFree(w: World, owner: Option<Name>, names: set<Name>, src: Kids, dst: Kids)
    requires names <= src.Keys
    decreases names
  {
    names == {} ||
    var n := Least(names);
    var d := NewName(w, src, dst, n, owner);
    || MoveRefused(w, n, src[n], dst, d)
    || (d !in dst && LandsFree(w, owner, names - {n}, src - {n}, dst[d := Arriving(w, n, src[n]).value]))
  }

  /** None of the moves is refused. */
  ghost predicate NoneRefused(w: World, owner: Option<Name>, names: set<Name>, src: Kids, dst: Kids)
    requires names <= src.Keys
    decreases names
  {
    names == {} ||
    var n := Least(names);
    var d := NewName(w, src, dst, n, owner);
    && !MoveRefused(w, n, src[n], dst, d)
    && NoneRefused(w, owner, names - {n}, src - {n}, dst[d := Arriving(w, n, src[n]).value])
  }

  /** What became of the tree `t`: whole, or, across devices, less its special files. */
  predicate Landed(dst: Kids, d: Name, t: Tree) {
    d in dst && (dst[d] == t || Carried(t) == Some(dst[d]))
  }

  /** What was carried has names that were free, and each one of its own. */
  ghost predicate NewNames(dst0: Kids, dest: map<Name, Name>) {
    && (forall n | n in dest :: dest[n] !in dst0)
    && forall m, n | m in dest && n in dest && m != n :: dest[m] != dest[n]
  }

  /** What has a `dest` is whole there, under a name of its own that was free, the rest is still at the
      source, and the destination keeps what it had. */
  ghost predicate Conserved(src: Kids, dst: Kids, src0: Kids, dst0: Kids, dest: map<Name, Name>) {
    && dest.Keys <= src0.Keys && NewNames(dst0, dest)
    && AllLanded(dst, src0, dest) && RestStay(src, src0, dest) && OldStay(dst, dst0)
  }

  ghost predicate AllLanded(dst: Kids, src0: Kids, dest: map<Name, Name>)
    requires dest.Keys <= src0.Keys
  {
    forall n | n in dest :: Landed(dst, dest[n], src0[n])
  }

  ghost predicate RestStay(src: Kids, src0: Kids, dest: map<Name, Name>) {
    forall n | n in src0 && n !in dest :: Has(src, src0, n)
  }

  ghost predicate OldStay(dst: Kids, dst0: Kids) {
    forall n | n in dst0 :: Has(dst, dst0, n)
  }

  /** ... and the destination has nothing else. */
  ghost predicate NothingElse(dst: Kids, dst0: Kids, dest: map<Name, Name>) {
    forall n | n in dst :: n in dst0 || n in dest.Values
  }

  /** No file and no directory of a store is ever replaced. */
  ghost predicate NoneReplaced(dst: Kids, dst0: Kids) {
    forall n | n in dst0 && !dst0[n].LinkT? :: Has(dst, dst0, n)
  }

  /** `d` is a candidate for `name`, and the destination holds those tried before it. */
  ghost predicate FirstTried(dst: Kids, name: Name, owner: Option<Name>, d: Name) {
    exists k: nat :: d == Candidate(name, owner, k) && Taken(dst, name, owner, k)
  }

  /** What holds whatever links are about. */
  ghost predicate AnyCase(dst: Kids, dst0: Kids, owner: Option<Name>, dest: map<Name, Name>) {
    NoneReplaced(dst, dst0) && forall n | n in dest :: FirstTried(dst, n, owner, dest[n])
  }

  /** Between two moves: `rest` is still to be carried. */
  ghost predicate Carrying(w: World, owner: Option<Name>, src0: Kids, dst0: Kids, dest: map<Name, Name>,
                           rest: set<Name>, src: Kids, dst: Kids) {
    && rest + dest.Keys == src0.Keys && rest !! dest.Keys && src == src0 - dest.Keys
    && AnyCase(dst, dst0, owner, dest)
    && (NoneRefused(w, owner, src0.Keys, src0, dst0) <==> NoneRefused(w, owner, rest, src, dst))
    && Sound(LandsFree(w, owner, src0.Keys, src0, dst0), LandsFree(w, owner, rest, src, dst), src, dst, src0, dst0,
             dest)
  }

  /** If the whole run lands on free names only, nothing is lost so far and the rest does too; if not, some
      name was not free, or one of the rest will not be. */
  ghost predicate Sound(free: bool, restFree: bool, src: Kids, dst: Kids, src0: Kids, dst0: Kids,
                        dest: map<Name, Name>) {
    if free then restFree && Conserved(src, dst, src0, dst0, dest) && NothingElse(dst, dst0, dest)
    else NewNames(dst0, dest) ==> !restFree && NothingElse(dst, dst0, dest)
  }

  /** Move every entry of `src` to a free name in `dst`, up to the first error.  Nothing is lost, however
      it ends, if every name found free is; and if no call fails, only if. */
  method CarryEntries(f: Faults, w: World, src: Folder, dst: Folder, owner: Option<Name>)
    returns (ok: bool, ghost dest: map<Name, Name>)
    requires src != dst && src.there
    modifies src`kids, dst`kids, f
    ensures old(f.seen) ==> f.seen
    ensures AnyCase(dst.kids, old(dst.kids), owner, dest)
    ensures LandsFree(w, owner, old(src.kids).Keys, old(src.kids), old(dst.kids)) ==>
              && Conserved(src.kids, dst.kids, old(src.kids), old(dst.kids), dest)
              && (ok ==> NothingElse(dst.kids, old(dst.kids), dest))
    ensures !f.seen ==>
              (Conserved(src.kids, dst.kids, old(src.kids), old(dst.kids), dest) <==>
               LandsFree(w, owner, old(src.kids).Keys, old(src.kids), old(dst.kids)))
    ensures !f.seen ==> (ok <==> NoneRefused(w, owner, old(src.kids).Keys, old(src.kids), old(dst.kids)))
    ensures ok ==> NoneRefused(w, owner, old(src.kids).Keys, old(src.kids), old(dst.kids))
    ensures ok ==> src.kids == map[] && dest.Keys == old(src.kids).Keys
  {
    ghost var src0, dst0 := src.kids, dst.kids;
    dest := map[];
    var rest: set<Name>;
    ok, rest := src.ListDir(f);
    if !ok { return; }
    while rest != {}
      invariant Carrying(w, owner, src0, dst0, dest, rest, src.kids, dst.kids)
      invariant old(f.seen) ==> f.seen
    {
      var name := TakeFirst(rest);
      ok, dest := CarryOne(f, w, src, dst, name, owner, src0, dst0, dest, rest);
      if !ok { return; }
      rest := rest - {name};
    }
    ok := true;
  }

  method CarryOne(f: Faults, w: World, src: Folder, dst: Folder, name: Name, owner: Option<Name>,
                  ghost src0: Kids, ghost dst0: Kids, ghost before: map<Name, Name>, ghost rest: set<Name>)
    returns (ok: bool, ghost dest: map<Name, Name>)
    requires src != dst && rest != {} && name == Least(rest)
    requires Carrying(w, owner, src0, dst0, before, rest, src.kids, dst.kids)
    modifies src`kids, dst`kids, f
    ensures old(f.seen) ==> f.seen
    ensures ok ==> Carrying(w, owner, src0, dst0, dest, rest - {name}, src.kids, dst.kids)
    ensures AnyCase(dst.kids, dst0, owner, dest)
    ensures LandsFree(w, owner, src0.Keys, src0, dst0) ==> Conserved(src.kids, dst.kids, src0, dst0, dest)
    ensures !ok && !f.seen ==> !NoneRefused(w, owner, src0.Keys, src0, dst0)
    ensures !ok && !f.seen ==> (NewNames(dst0, dest) ==> LandsFree(w, owner, src0.Keys, src0, dst0))
  {
    var d := UniqueDest(w, src, dst, name, owner);
    ghost var src1, dst1 := src.kids, dst.kids;
    ghost var landed;
    ok, landed := MoveEntry(f, w, src, name, dst, d);
    dest := if landed then before[name := d] else before;
    if landed {
      AfterMove(w, owner, src0, dst0, before, rest, src1, dst1, src.kids, ok);
    } else {
      AfterNone(w, owner, src0, dst0, before, rest, src1, dst1, dst.kids);
    }
  }

  /** A move that did not land. */
  lemma AfterNone(w: World, owner: Option<Name>, src0: Kids, dst0: Kids, dest: map<Name, Name>, rest: set<Name>,
                  src1: Kids, dst1: Kids, dst: Kids)
    requires rest != {} && Carrying(w, owner, src0, dst0, dest, rest, src1, dst1)
    requires forall m | m in dst1 :: Has(dst, dst1, m)
    ensures AnyCase(dst, dst0, owner, dest)
    ensures LandsFree(w, owner, src0.Keys, src0, dst0) ==> Conserved(src1, dst, src0, dst0, dest)
    ensures
      var n := Least(rest);
      MoveRefused(w, n, src1[n], dst1, NewName(w, src1, dst1, n, owner)) ==>
        && !NoneRefused(w, owner, src0.Keys, src0, dst0)
        && (NewNames(dst0, dest) ==> LandsFree(w, owner, src0.Keys, src0, dst0))
  {
    StillTried(dst1, dst, owner, dest);
    forall n | n in dst0 && Has(dst1, dst0, n) ensures Has(dst, dst0, n) {
      assert Has(dst, dst1, n);
    }
    if LandsFree(w, owner, src0.Keys, src0, dst0) {
      forall n | n in dest ensures Landed(dst, dest[n], src0[n]) {
        assert Landed(dst1, dest[n], src0[n]);
        assert Has(dst, dst1, dest[n]);
      }
    }
  }

  lemma StillTried(dst1: Kids, dst: Kids, owner: Option<Name>, dest: map<Name, Name>)
    requires dst1.Keys <= dst.Keys && forall n | n in dest :: FirstTried(dst1, n, owner, dest[n])
    ensures forall n | n in dest :: FirstTried(dst, n, owner, dest[n])
  {
    forall n | n in dest ensures FirstTried(dst, n, owner, dest[n]) {
      var k: nat :| dest[n] == Candidate(n, owner, k) && Taken(dst1, n, owner, k);
      assert Taken(dst, n, owner, k);
    }
  }

  /** A move that landed, whether or not the removal at the source came through. */
  lemma AfterMove(w: World, owner: Option<Name>, src0: Kids, dst0: Kids, before: map<Name, Name>, rest: set<Name>,
                  src1: Kids, dst1: Kids, src: Kids, ok: bool)
    requires rest != {} && Carrying(w, owner, src0, dst0, before, rest, src1, dst1)
    requires src - {Least(rest)} == src1 - {Least(rest)} && (ok ==> src == src1 - {Least(rest)})
    requires var n := Least(rest); !MoveRefused(w, n, src1[n], dst1, NewName(w, src1, dst1, n, owner))
    ensures
      var n := Least(rest);
      var d := NewName(w, src1, dst1, n, owner);
      var dst, dest := dst1[d := Arriving(w, n, src1[n]).value], before[n := d];
      && AnyCase(dst, dst0, owner, dest)
      && (LandsFree(w, owner, src0.Keys, src0, dst0) ==> Conserved(src, dst, src0, dst0, dest))
      && (ok ==> Carrying(w, owner, src0, dst0, dest, rest - {n}, src, dst))
  {
    var n := Least(rest);
    var d := NewName(w, src1, dst1, n, owner);
    var dst, dest := dst1[d := Arriving(w, n, src1[n]).value], before[n := d];
    AnyCaseStays(w, owner, dst0, before, src1, dst1, n, Arriving(w, n, src1[n]).value);
    assert src1[n] == src0[n];
    OneLands(w, owner, rest, src1, dst1);
    SoundStays(LandsFree(w, owner, src0.Keys, src0, dst0), LandsFree(w, owner, rest, src1, dst1),
               src1, src, dst1, dst, src0, dst0, before, n, d);
    if ok {
      RestOf(src0, before, rest, src1, n, d);
    }
  }

  /** One move of the run, and then the others. */
  lemma OneLands(w: World, owner: Option<Name>, rest: set<Name>, src: Kids, dst: Kids)
    requires rest != {} && rest <= src.Keys
    requires var n := Least(rest); !MoveRefused(w, n, src[n], dst, NewName(w, src, dst, n, owner))
    ensures
      var n := Least(rest);
      var d := NewName(w, src, dst, n, owner);
      var later := dst[d := Arriving(w, n, src[n]).value];
      && (LandsFree(w, owner, rest, src, dst) <==> d !in dst && LandsFree(w, owner, rest - {n}, src - {n}, later))
      && (NoneRefused(w, owner, rest, src, dst) <==> NoneRefused(w, owner, rest - {n}, src - {n}, later))
  {
  }

  lemma RestOf(src0: Kids, before: map<Name, Name>, rest: set<Name>, src1: Kids, n: Name, d: Name)
    requires rest + before.Keys == src0.Keys && rest !! before.Keys && src1 == src0 - before.Keys && n in rest
    ensures
      var dest := before[n := d];
      (rest - {n}) + dest.Keys == src0.Keys && (rest - {n}) !! dest.Keys && src1 - {n} == src0 - dest.Keys
  {
  }

  lemma SoundStays(free: bool, restFree: bool, src1: Kids, src: Kids, dst1: Kids, dst: Kids, src0: Kids, dst0: Kids,
                   before: map<Name, Name>, n: Name, d: Name)
    requires Sound(free, restFree, src1, dst1, src0, dst0, before) && (restFree ==> d !in dst1)
    requires n in src0 && n !in before && src - {n} == src1 - {n}
    requires Landed(dst, d, src0[n]) && dst == dst1[d := dst[d]]
    ensures free ==> Conserved(src, dst, src0, dst0, before[n := d])
    ensures Sound(free, restFree || d in dst1, src, dst, src0, dst0, before[n := d])
  {
    if free {
      Extended(src1, src, dst1, dst, src0, dst0, before, n, d);
    } else if NewNames(dst0, before[n := d]) {
      OnlyNew(dst1, dst, dst0, before, n, d);
    }
  }

  lemma AnyCaseStays(w: World, owner: Option<Name>, dst0: Kids, before: map<Name, Name>, src1: Kids, dst1: Kids,
                     n: Name, t: Tree)
    requires AnyCase(dst1, dst0, owner, before)
    ensures
      var d := NewName(w, src1, dst1, n, owner);
      AnyCase(dst1[d := t], dst0, owner, before[n := d])
  {
    var d := NewName(w, src1, dst1, n, owner);
    var dst := dst1[d := t];
    var k := FirstFree(w, src1, dst1, n, owner, 0);
    assert Taken(dst, n, owner, k);
    StillTried(dst1, dst, owner, before);
    forall m | m in dst0 && !dst0[m].LinkT? ensures Has(dst, dst0, m) {
      assert Has(dst1, dst0, m);
    }
  }

  /** While every carried entry has a name of its own that was free, the name taken is free as well. */
  lemma OnlyNew(dst1: Kids, dst: Kids, dst0: Kids, before: map<Name, Name>, n: Name, d: Name)
    requires n !in before && NewNames(dst0, before[n := d]) && dst.Keys == dst1.Keys + {d}
    requires NewNames(dst0, before) ==> NothingElse(dst1, dst0, before)
    ensures NewNames(dst0, before) && d !in dst1 && NothingElse(dst, dst0, before[n := d])
  {
    var dest := before[n := d];
    forall m | m in before ensures before[m] == dest[m] {
    }
    forall a, b | a in before && b in before && a != b ensures before[a] != before[b] {
      assert dest[a] != dest[b];
    }
    assert NewNames(dst0, before);
    forall m | m in before ensures before[m] != d {
      assert dest[m] != dest[n];
    }
    NothingMore(dst1, dst, dst0, before, n, d);
  }

  lemma Extended(src1: Kids, src: Kids, dst1: Kids, dst: Kids, src0: Kids, dst0: Kids, dest: map<Name, Name>,
                 name: Name, d: Name)
    requires Conserved(src1, dst1, src0, dst0, dest) && NothingElse(dst1, dst0, dest)
    requires name in src0 && name !in dest && d !in dst1
    requires src - {name} == src1 - {name}
    requires Landed(dst, d, src0[name]) && dst == dst1[d := dst[d]]
    ensures Conserved(src, dst, src0, dst0, dest[name := d]) && NothingElse(dst, dst0, dest[name := d])
  {
    OldStill(dst1, dst, dst0, d);
    forall n | n in dest ensures dest[n] in dst1 {
      assert Landed(dst1, dest[n], src0[n]);
    }
    NamesStill(dst1, dst0, dest, name, d);
    LandedStill(dst1, dst, src0, dest, name, d);
    RestStill(src1, src, src0, dest, name, d);
    NothingMore(dst1, dst, dst0, dest, name, d);
  }

  lemma OldStill(dst1: Kids, dst: Kids, dst0: Kids, d: Name)
    requires OldStay(dst1, dst0) && d !in dst1 && d in dst && dst == dst1[d := dst[d]]
    ensures d !in dst0 && OldStay(dst, dst0)
  {
    forall n | n in dst0 ensures n != d && Has(dst, dst0, n) {
      assert Has(dst1, dst0, n);
    }
  }

  lemma NamesStill(dst1: Kids, dst0: Kids, dest: map<Name, Name>, name: Name, d: Name)
    requires NewNames(dst0, dest) && d !in dst0 && d !in dst1 && forall n | n in dest :: dest[n] in dst1
    ensures NewNames(dst0, dest[name := d])
  {
  }

  lemma LandedStill(dst1: Kids, dst: Kids, src0: Kids, dest: map<Name, Name>, name: Name, d: Name)
    requires dest.Keys <= src0.Keys && AllLanded(dst1, src0, dest) && name in src0 && name !in dest && d !in dst1
    requires Landed(dst, d, src0[name]) && dst == dst1[d := dst[d]]
    ensures dest[name := d].Keys <= src0.Keys && AllLanded(dst, src0, dest[name := d])
  {
    forall n | n in dest ensures Landed(dst, dest[n], src0[n]) {
      assert Landed(dst1, dest[n], src0[n]);
    }
  }

  lemma RestStill(src1: Kids, src: Kids, src0: Kids, dest: map<Name, Name>, name: Name, d: Name)
    requires RestStay(src1, src0, dest) && src - {name} == src1 - {name}
    ensures RestStay(src, src0, dest[name := d])
  {
    forall n | n in src0 && n !in dest[name := d] ensures Has(src, src0, n) {
      assert Has(src1, src0, n);
      assert n in src1 - {name};
      assert (src - {name})[n] == (src1 - {name})[n];
    }
  }

  lemma NothingMore(dst1: Kids, dst: Kids, dst0: Kids, dest: map<Name, Name>, name: Name, d: Name)
    requires NothingElse(dst1, dst0, dest) && name !in dest && dst.Keys == dst1.Keys + {d}
    ensures NothingElse(dst, dst0, dest[name := d])
  {
    var more := dest[name := d];
    forall n | n in dst ensures n in dst0 || n in more.Values {
      if n == d {
        assert more[name] == n;
      } else if n !in dst0 {
        var m :| m in dest && dest[m] == n;
        assert more[m] == n;
      }
    }
  }

  // --- when names are free -------------------------------------------------------------

  /** Snapshots are directories: a move never replaces a link by one. */
  lemma {:induction false} DirsLandFree(w: World, owner: Option<Name>, names: set<Name>, src: Kids, dst: Kids)
    requires names <= src.Keys && forall n | n in names :: src[n].DirT?
    ensures LandsFree(w, owner, names, src, dst)
    decreases names
  {
    if names != {} {
      var n := Least(names);
      var d := NewName(w, src, dst, n, owner);
      if !MoveRefused(w, n, src[n], dst, d) {
        DirsLandFree(w, owner, names - {n}, src - {n}, dst[d := Arriving(w, n, src[n]).value]);
      }
    }
  }

  /** Each carried name is new to the destination: whatever the links, each keeps its name. */
  lemma {:induction false} ApartLandsFree(w: World, owner: Option<Name>, names: set<Name>, src: Kids, dst: Kids)
    requires names <= src.Keys && names !! dst.Keys
    ensures LandsFree(w, owner, names, src, dst)
    ensures NoneRefused(w, owner, names, src, dst) <==> forall n | n in names :: Arriving(w, n, src[n]).Some?
    decreases names
  {
    if names != {} {
      var n := Least(names);
      OnlyOneFirst(w, src, dst, n, owner, 0);
      assert NewName(w, src, dst, n, owner) == n;
      if Arriving(w, n, src[n]).Some? {
        ApartLandsFree(w, owner, names - {n}, src - {n}, dst[n := Arriving(w, n, src[n]).value]);
        assert forall m | m in names - {n} :: (src - {n})[m] == src[m];
      }
    }
  }

  /** There is no link for a test to look through. */
  predicate NoLinks(names: set<Name>, src: Kids, dst: Kids)
    requires names <= src.Keys
  {
    (forall n | n in names :: !src[n].LinkT?) && forall n | n in dst :: !dst[n].LinkT?
  }

  lemma {:induction false} NoLinksLandFree(w: World, owner: Option<Name>, names: set<Name>, src: Kids, dst: Kids)
    requires names <= src.Keys && NoLinks(names, src, dst)
    ensures LandsFree(w, owner, names, src, dst)
    ensures NoneRefused(w, owner, names, src, dst) <==> forall n | n in names :: Arriving(w, n, src[n]).Some?
    decreases names
  {
    if names != {} {
      var n := Least(names);
      var d := NewName(w, src, dst, n, owner);
      assert d !in dst;
      if Arriving(w, n, src[n]).Some? {
        NoLinksLandFree(w, owner, names - {n}, src - {n}, dst[d := Arriving(w, n, src[n]).value]);
        assert forall m | m in names - {n} :: (src - {n})[m] == src[m];
      }
    }
  }

  /** A carry that loses an entry: `exists` looks through links, so the carried file lands on a link that
      leads nowhere, and the link is gone. */
  lemma LinkReplaced(w: World)
    requires forall src, dst :: !w.leads(src, dst, "gone")
    ensures
      var src: Kids, dst: Kids := map["a" := FileT([1])], map["a" := LinkT("gone")];
      && !LandsFree(w, Some("box"), {"a"}, src, dst) && NoneRefused(w, Some("box"), {"a"}, src, dst)
      && NewName(w, src, dst, "a", Some("box")) == "a"
  {
    var src: Kids, dst: Kids := map["a" := FileT([1])], map["a" := LinkT("gone")];
    assert "a" in src && "a" in dst && dst["a"] == LinkT("gone");
    assert !Exists(w, src, dst, "a");
    OnlyOneFirst(w, src, dst, "a", Some("box"), 0);
    var least := Least({"a"});
    assert least == "a";
    assert {"a"} - {"a"} == {};
    assert Carried(FileT([1])) == Some(FileT([1]));
  }

  // --- the whole carry -----------------------------------------------------------------

  datatype CarryEnd = NothingToCarry | LinkRefused | CarriedAll | CarryFailed

  /** No directory at all, a link, or a real directory is at a store's path. */
  datatype Place = Absent | Link | Real

  /** The whole store `kids` is at `to`, or, across devices, all of it but its special files. */
  predicate Arrived(to: Folder, kids: Kids)
    reads to
  {
    to.there && (to.kids == kids || Carried(DirT(kids)) == Some(DirT(to.kids)))
  }

  /** Move a whole store to where there is none. */
  method MoveStore(f: Faults, carried: Folder, store: Folder) returns (r: CarryEnd)
    requires carried != store && carried.there && !store.there
    modifies carried, store, f
    ensures r.CarriedAll? || (r.CarryFailed? && f.seen)
    ensures old(f.seen) ==> f.seen
    ensures r.CarriedAll? ==> !carried.there && Arrived(store, old(carried.kids))
    ensures r.CarriedAll? ==>
              && store.there
              && (store.kids == old(carried.kids) || Carried(DirT(old(carried.kids))) == Some(DirT(store.kids)))
    ensures r.CarryFailed? ==> (carried.there && carried.kids == old(carried.kids)) || Arrived(store, old(carried.kids))
  {
    if * {
      f.seen := true;
      store.there, store.kids := *, *;
      return CarryFailed;
    }
    var all := carried.kids;
    var across := *;
    store.there, store.kids := true, if across then Carried(DirT(all)).value.kids else all;
    var ok := carried.RemoveDir(f);
    return if ok then CarriedAll else CarryFailed;
  }

  /** A store: where it is, what it holds, and what `Walk.Walker.FirstSymlink` met on the way to it. */
  datatype Store = Store(dir: Folder, at: Spot, way: seq<Walk.Part>)

  /** How a merge of the store `src0` into the store `dst0` ends, by the names it gave. */
  ghost predicate Merged(w: World, owner: Option<Name>, src: Kids, dst: Kids, src0: Kids, dst0: Kids,
                         dest: map<Name, Name>, all: bool) {
    && AnyCase(dst, dst0, owner, dest)
    && (LandsFree(w, owner, src0.Keys, src0, dst0) ==>
          Conserved(src, dst, src0, dst0, dest) && (all ==> NothingElse(dst, dst0, dest)))
    && (all ==> NoneRefused(w, owner, src0.Keys, src0, dst0) && dest.Keys == src0.Keys)
  }

  /** Carry `carried` to `store`: moved whole where there is no store yet, else merged into it.  `same`:
      whether the system says they are one directory. */
  method Carry(f: Faults, w: World, carried: Store, store: Store, same: Option<bool>, oldBox: Name)
    returns (r: CarryEnd, ghost dest: map<Name, Name>)
    requires carried.dir.there && (carried.dir == store.dir ==> StoresOverlap(carried.at, store.at, same))
    modifies carried.dir, store.dir, f
    ensures old(f.seen) ==> f.seen
    ensures r.NothingToCarry? <==> StoresOverlap(carried.at, store.at, same)
    ensures r.LinkRefused? <==>
              !StoresOverlap(carried.at, store.at, same) && (Walk.WayRefused(carried.way) || Walk.WayRefused(store.way))
    ensures r.NothingToCarry? || r.LinkRefused? ==> unchanged(carried.dir, store.dir)
    ensures r.CarriedAll? && !old(store.dir.there) ==> !carried.dir.there && Arrived(store.dir, old(carried.dir.kids))
    ensures r.CarriedAll? && !old(store.dir.there) ==>
              && store.dir.there
              && (store.dir.kids == old(carried.dir.kids)
                  || Carried(DirT(old(carried.dir.kids))) == Some(DirT(store.dir.kids)))
    ensures r.CarryFailed? && !old(store.dir.there) ==>
              && f.seen
              && ((carried.dir.there && carried.dir.kids == old(carried.dir.kids))
                  || Arrived(store.dir, old(carried.dir.kids)))
    ensures (r.CarriedAll? || r.CarryFailed?) && old(store.dir.there) ==>
              Merged(w, Some(oldBox), carried.dir.kids, store.dir.kids, old(carried.dir.kids), old(store.dir.kids),
                     dest, r.CarriedAll?)
    ensures (r.CarriedAll? || r.CarryFailed?) && old(store.dir.there) && !f.seen ==>
              && (r.CarriedAll? <==>
                  NoneRefused(w, Some(oldBox), old(carried.dir.kids).Keys, old(carried.dir.kids), old(store.dir.kids)))
              && (Conserved(carried.dir.kids, store.dir.kids, old(carried.dir.kids), old(store.dir.kids), dest) <==>
                  LandsFree(w, Some(oldBox), old(carried.dir.kids).Keys, old(carried.dir.kids), old(store.dir.kids)))
  {
    dest := map[];
    if StoresOverlap(carried.at, store.at, same) { return NothingToCarry, dest; }
    if Walk.WayRefused(carried.way) { return LinkRefused, dest; }
    if Walk.WayRefused(store.way) { return LinkRefused, dest; }
    if !store.dir.there {
      r := MoveStore(f, carried.dir, store.dir);
      return;
    }
    if * {
      f.seen := true;
      return CarryFailed, dest;
    }
    var ok;
    ok, dest := CarryEntries(f, w, carried.dir, store.dir, Some(oldBox));
    if !ok { return CarryFailed, dest; }
    var emptied := carried.dir.RemoveDir(f);
    return CarriedAll, dest;
  }

  /** Which store is carried: the one a tree copy brought along in the new base, only where that
      base is the box's own; else the one under the old key. */
  function Chosen(oldBase: Path, newBase: Path, oldBox: Name, newBox: Name, newExclusive: bool, inNew: Place,
                  atOld: Place):
      Option<bool> {
    if newExclusive && newBox != oldBox && inNew.Real? then Some(true)
    else if oldBase + [oldBox] != newBase + [newBox] && atOld.Real? then Some(false)
    else None
  }

  /** Carry the old box's store to the new key.  `inNew` is what the new base holds under the old
      name: another box's store unless that base is this box's own. */
  method Relocate(f: Faults, w: World, oldBase: Path, newBase: Path, oldBox: Name, newBox: Name, newExclusive: bool,
                  fromOld: Store, inNew: Store, store: Store, atOld: Place, atNew: Place, same: Option<bool>)
    returns (r: CarryEnd, ghost dest: map<Name, Name>)
    requires (atOld.Real? ==> fromOld.dir.there) && (atNew.Real? ==> inNew.dir.there)
    requires fromOld.dir == store.dir ==> StoresOverlap(fromOld.at, store.at, same)
    requires inNew.dir == store.dir ==> StoresOverlap(inNew.at, store.at, same)
    modifies fromOld.dir, inNew.dir, store.dir, f
    ensures old(f.seen) ==> f.seen
    ensures inNew.dir != store.dir && inNew.dir != fromOld.dir && !newExclusive ==> unchanged(inNew.dir)
    ensures fromOld.dir != store.dir && fromOld.dir != inNew.dir && newExclusive && newBox != oldBox && atNew.Real? ==>
              unchanged(fromOld.dir)
    ensures r.NothingToCarry? || r.LinkRefused? ==> unchanged(fromOld.dir, inNew.dir, store.dir)
    ensures oldBase == newBase && oldBox == newBox ==> r.NothingToCarry?
    ensures r.NothingToCarry? <==>
            if newExclusive && newBox != oldBox && atNew.Real? then StoresOverlap(inNew.at, store.at, same)
            else oldBase + [oldBox] == newBase + [newBox] || !atOld.Real? || StoresOverlap(fromOld.at, store.at, same)
    ensures r.LinkRefused? ==>
              var from := if newExclusive && newBox != oldBox && atNew.Real? then inNew else fromOld;
              Walk.WayRefused(from.way) || Walk.WayRefused(store.way)
    ensures old(store.dir.there) && (r.CarriedAll? || r.CarryFailed?) ==>
              if newExclusive && newBox != oldBox && atNew.Real?
              then Merged(w, Some(oldBox), inNew.dir.kids, store.dir.kids, old(inNew.dir.kids), old(store.dir.kids),
                          dest, r.CarriedAll?)
              else Merged(w, Some(oldBox), fromOld.dir.kids, store.dir.kids, old(fromOld.dir.kids), old(store.dir.kids),
                          dest, r.CarriedAll?)
    ensures !old(store.dir.there) && r.CarriedAll? ==>
              Arrived(store.dir, if newExclusive && newBox != oldBox && atNew.Real? then old(inNew.dir.kids)
                                 else old(fromOld.dir.kids))
  {
    var which := Chosen(oldBase, newBase, oldBox, newBox, newExclusive, atNew, atOld);
    if which.None? { return NothingToCarry, map[]; }
    if which.value {
      r, dest := Carry(f, w, inNew, store, same, oldBox);
    } else {
      r, dest := Carry(f, w, fromOld, store, same, oldBox);
    }
  }
}
