/** Free names for the snapshots one box's store brings into another: the order they are tried in, and
    what the test of a name sees. */
module FreeNames {
  import opened Collections
  import opened Trees
  import opened Options
  import opened Decimal
  import opened Restore

  /** What the file system decides: whether a link with this text, in the second store, leads somewhere,
      and which entries a rename cannot move. */
  datatype World = World(leads: (Kids, Kids, string) -> bool, across: Name -> bool)

  // --- the candidates ------------------------------------------------------------------

  function Stem(name: Name, owner: Option<Name>): Name {
    if owner.None? then name else name + "-" + owner.value
  }

  /** The names a snapshot `name` may get, in the order they are tried. */
  function Candidate(name: Name, owner: Option<Name>, k: nat): Name {
    if k == 0 then name
    else if owner.Some? && k == 1 then Stem(name, owner)
    else Stem(name, owner) + "-" + Render(if owner.Some? then k else k + 1)
  }

  /** The first name tried is the snapshot's own; then come its owner's, if there is one, and counted ones. */
  lemma CandidatesAre(name: Name, owner: Option<Name>, k: nat)
    ensures k == 0 ==> Candidate(name, owner, k) == name
    ensures owner.Some? && k == 1 ==> Candidate(name, owner, k) == name + "-" + owner.value
    ensures owner.Some? && k > 1 ==> Candidate(name, owner, k) == name + "-" + owner.value + "-" + Render(k)
    ensures owner.None? && k > 0 ==> Candidate(name, owner, k) == name + "-" + Render(k + 1)
  {
  }

  /** No two candidates are the same name. */
  lemma CandidatesDiffer(name: Name, owner: Option<Name>, j: nat, k: nat)
    requires j < k
    ensures Candidate(name, owner, j) != Candidate(name, owner, k)
  {
    var a, b := Candidate(name, owner, j), Candidate(name, owner, k);
    var stem := Stem(name, owner);
    var p, q := if owner.Some? then j else j + 1, if owner.Some? then k else k + 1;
    if j > 0 && p > 1 && a == b {
      assert a[|stem| + 1..] == Render(p) && b[|stem| + 1..] == Render(q);
      RenderInjective(p, q);
    }
  }

  /** The first `k` candidates are taken. */
  predicate Taken(dst: Kids, name: Name, owner: Option<Name>, k: nat) {
    forall j | 0 <= j < k :: Candidate(name, owner, j) in dst
  }

  /** A store of so many entries takes no more candidates than that. */
  lemma TakenBound(dst: Kids, name: Name, owner: Option<Name>, k: nat)
    requires Taken(dst, name, owner, k)
    ensures k <= |dst|
  {
    var tried := seq(k, j requires 0 <= j < k => Candidate(name, owner, j));
    forall i, j | 0 <= i < j < k ensures tried[i] != tried[j] {
      CandidatesDiffer(name, owner, i, j);
    }
    DistinctSize(tried);
    SubsetSize((set n | n in tried), dst.Keys);
    assert |dst.Keys| == |dst|;
  }

  // --- the first at which nothing is seen ----------------------------------------------

  /** Something is seen at `n`, links followed: a link that leads nowhere is not there. */
  predicate Exists(w: World, src: Kids, dst: Kids, n: Name) {
    n in dst && (dst[n].LinkT? ==> w.leads(src, dst, dst[n].text))
  }

  /** Something is seen at each of the first `k` candidates. */
  predicate SeenBelow(w: World, src: Kids, dst: Kids, name: Name, owner: Option<Name>, k: nat) {
    forall j | 0 <= j < k :: Exists(w, src, dst, Candidate(name, owner, j))
  }

  /** The first candidate, from `k` on, at which nothing is seen. */
  ghost function FirstFree(w: World, src: Kids, dst: Kids, name: Name, owner: Option<Name>, k: nat): (r: nat)
    requires SeenBelow(w, src, dst, name, owner, k)
    ensures SeenBelow(w, src, dst, name, owner, r) && !Exists(w, src, dst, Candidate(name, owner, r))
    decreases |dst| + 1 - k
  {
    TakenBound(dst, name, owner, k);
    if Exists(w, src, dst, Candidate(name, owner, k)) then FirstFree(w, src, dst, name, owner, k + 1) else k
  }

  /** The name a snapshot gets. */
  ghost function NewName(w: World, src: Kids, dst: Kids, name: Name, owner: Option<Name>): Name {
    Candidate(name, owner, FirstFree(w, src, dst, name, owner, 0))
  }

  lemma OnlyOneFirst(w: World, src: Kids, dst: Kids, name: Name, owner: Option<Name>, k: nat)
    requires SeenBelow(w, src, dst, name, owner, k) && !Exists(w, src, dst, Candidate(name, owner, k))
    ensures k == FirstFree(w, src, dst, name, owner, 0)
  {
    var r := FirstFree(w, src, dst, name, owner, 0);
    assert k < r ==> Exists(w, src, dst, Candidate(name, owner, k));
  }

  /** The name itself, then the one with the owner's, then numbered ones: the search ends, since no two
      candidates are the same and the store holds finitely many names. */
  method UniqueDest(w: World, carried: Folder, target: Folder, name: Name, owner: Option<Name>) returns (dest: Name)
    ensures dest == NewName(w, carried.kids, target.kids, name, owner)
    ensures name !in target.kids ==> dest == name
    ensures owner.Some? && Exists(w, carried.kids, target.kids, name) && name + "-" + owner.value !in target.kids ==>
              dest == name + "-" + owner.value
  {
    var src, dst, stem := carried.kids, target.kids, Stem(name, owner);
    dest := name;
    if !Exists(w, src, dst, dest) {
      OnlyOneFirst(w, src, dst, name, owner, 0);
      return;
    }
    if owner.Some? && !Exists(w, src, dst, stem) {
      OnlyOneFirst(w, src, dst, name, owner, 1);
      return stem;
    }
    var n: nat := 2;
    ghost var k := if owner.Some? then 2 else 1;
    dest := stem + "-" + Render(n);
    TakenBound(dst, name, owner, k);
    while Exists(w, src, dst, dest)
      invariant n >= 2 && k == if owner.Some? then n else n - 1
      invariant dest == Candidate(name, owner, k) && SeenBelow(w, src, dst, name, owner, k)
      invariant k <= |dst|
      decreases |dst| + 1 - k
    {
      n, k := n + 1, k + 1;
      TakenBound(dst, name, owner, k);
      dest := stem + "-" + Render(n);
    }
    OnlyOneFirst(w, src, dst, name, owner, k);
  }

  // --- sorted names --------------------------------------------------------------------

  /** The order names are sorted in. */
  predicate AtMost(a: Name, b: Name) {
    a == [] || (b != [] && (a[0] < b[0] || (a[0] == b[0] && AtMost(a[1..], b[1..]))))
  }

  lemma {:induction false} AtMostTotal(a: Name, b: Name)
    ensures AtMost(a, b) || AtMost(b, a)
    ensures AtMost(a, b) && AtMost(b, a) ==> a == b
  {
    if a != [] && b != [] && a[0] == b[0] {
      AtMostTotal(a[1..], b[1..]);
      assert a == [a[0]] + a[1..] && b == [b[0]] + b[1..];
    }
  }

  lemma {:induction false} AtMostTransitive(a: Name, b: Name, c: Name)
    requires AtMost(a, b) && AtMost(b, c)
    ensures AtMost(a, c)
  {
    if a != [] && a[0] == b[0] == c[0] {
      AtMostTransitive(a[1..], b[1..], c[1..]);
    }
  }

  /** `n` comes first of the names. */
  ghost predicate IsLeast(n: Name, names: set<Name>) {
    n in names && forall m | m in names :: AtMost(n, m)
  }

  lemma {:induction false} SomeLeast(names: set<Name>) returns (n: Name)
    requires names != {}
    ensures IsLeast(n, names)
    decreases names
  {
    n :| n in names;
    AtMostTotal(n, n);
    if names - {n} == {} {
      assert names == {n};
    } else {
      var m := SomeLeast(names - {n});
      AtMostTotal(n, m);
      if AtMost(n, m) {
        forall x | x in names ensures AtMost(n, x) {
          if x != n {
            AtMostTransitive(n, m, x);
          }
        }
      } else {
        n := m;
      }
    }
  }

  lemma LeastThere(names: set<Name>)
    requires names != {}
    ensures exists n :: IsLeast(n, names)
  {
    var n := SomeLeast(names);
  }

  /** The name a sorted listing takes first. */
  ghost function Least(names: set<Name>): (n: Name)
    requires names != {}
    ensures IsLeast(n, names)
  {
    LeastThere(names);
    var n :| IsLeast(n, names);
    n
  }

  method TakeFirst(names: set<Name>) returns (n: Name)
    requires names != {}
    ensures n == Least(names)
  {
    LeastThere(names);
    n :| n in names && forall m | m in names :: AtMost(n, m);
    AtMostTotal(n, Least(names));
  }
}
