/** What a no-clobber merge of one tree into another means, without inodes, stacks, or order. */
module Merge {
  import opened Options
  import opened Trees

  /** A source entry as the copier reads it.  `SDangling` is a followed link that leads nowhere,
      `SLoop` a directory link back to a directory being copied, `SDest` the destination itself. */
  datatype Src =
    | SFile(data: Bytes)
    | SLink(text: string)
    | SSpecial
    | SDir(kids: map<Name, Src>)
    | SDangling
    | SLoop
    | SDest

  /** What a name holds after a merge of `s` into what is `there`; `None`: the name stays absent. */
  function Merged(s: Src, there: Option<Tree>, skipLinks: bool): Option<Tree>
    decreases s, 2
  {
    if there.Some? && there.value.LinkT? then there
    else
      match s
      case SFile(data) => if there.Some? && !there.value.FileT? then there else Some(FileT(data))
      case SLink(text) => if skipLinks || there.Some? then there else Some(LinkT(text))
      case SDir(_) =>
        if there.None? then Some(DirT(MergedKids(s, map[], skipLinks)))
        else if there.value.DirT? then Some(DirT(MergedKids(s, there.value.kids, skipLinks)))
        else there
      case _ => there
  }

  /** The entries of a directory after a merge of the directory `src` into it. */
  function MergedKids(src: Src, kids: map<Name, Tree>, skipLinks: bool): map<Name, Tree>
    requires src.SDir?
    decreases src, 1
  {
    map n | n in src.kids.Keys + kids.Keys && MergedName(src, kids, n, skipLinks).Some? ::
      MergedName(src, kids, n, skipLinks).value
  }

  function MergedName(src: Src, kids: map<Name, Tree>, n: Name, skipLinks: bool): Option<Tree>
    requires src.SDir?
    decreases src, 0
  {
    if n in src.kids then Merged(src.kids[n], Get(kids, n), skipLinks) else Get(kids, n)
  }

  /** `p` names, from `s` down, a source entry the merge has to report as left out. */
  predicate LeftOut(s: Src, there: Option<Tree>, skipLinks: bool, p: Path)
    decreases s
  {
    if s.SDangling? || (there.Some? && there.value.LinkT?) then p == []
    else
      match s
      case SFile(_) => there.Some? && !there.value.FileT? && p == []
      case SLink(_) => (skipLinks || there.Some?) && p == []
      case SLoop => p == []
      case SDir(kids) =>
        if there.Some? && !there.value.DirT? then p == []
        else
          var d := if there.None? then map[] else there.value.kids;
          |p| > 0 && p[0] in kids && LeftOut(kids[p[0]], Get(d, p[0]), skipLinks, p[1..])
      case _ => false
  }

  /** The source entry at `p`, read down from `s`. */
  function SrcAt(s: Src, p: Path): Option<Src>
    decreases |p|
  {
    if p == [] then Some(s)
    else if s.SDir? && p[0] in s.kids then SrcAt(s.kids[p[0]], p[1..])
    else None
  }

  /** The tree at `p`, read down from `t`. */
  function TreeAt(t: Option<Tree>, p: Path): Option<Tree>
    decreases |p|
  {
    if p == [] then t
    else if t.Some? && t.value.DirT? && p[0] in t.value.kids then TreeAt(Some(t.value.kids[p[0]]), p[1..])
    else None
  }

  /** An entry holds what the source entry held: the same bytes, the same link text, or a directory. */
  predicate Carries(s: Src, t: Option<Tree>) {
    match s
    case SFile(data) => t == Some(FileT(data))
    case SLink(text) => t == Some(LinkT(text))
    case SDir(_) => t.Some? && t.value.DirT?
    case _ => false
  }

  lemma MergedKidsAt(src: Src, kids: map<Name, Tree>, n: Name, skipLinks: bool)
    requires src.SDir?
    ensures Get(MergedKids(src, kids, skipLinks), n) == MergedName(src, kids, n, skipLinks)
  {
  }

  /** A file, link, or directory of the source is carried unless it, or a directory on the way to
      it, is reported as left out. */
  lemma {:induction false} CarriedOrReported(s: Src, there: Option<Tree>, skipLinks: bool, p: Path)
    requires SrcAt(s, p).Some?
    requires var e := SrcAt(s, p).value; e.SFile? || e.SLink? || e.SDir?
    ensures
      || Carries(SrcAt(s, p).value, TreeAt(Merged(s, there, skipLinks), p))
      || exists k | 0 <= k <= |p| :: LeftOut(s, there, skipLinks, p[..k])
    decreases |p|
  {
    if LeftOut(s, there, skipLinks, []) {
      assert p[..0] == [];
    } else if p != [] {
      var d := if there.None? then map[] else there.value.kids;
      var n := p[0];
      MergedKidsAt(s, d, n, skipLinks);
      CarriedOrReported(s.kids[n], Get(d, n), skipLinks, p[1..]);
      if !Carries(SrcAt(s, p).value, TreeAt(Merged(s, there, skipLinks), p)) {
        var k :| 0 <= k <= |p| - 1 && LeftOut(s.kids[n], Get(d, n), skipLinks, p[1..][..k]);
        assert p[..k + 1][1..] == p[1..][..k];
        assert LeftOut(s, there, skipLinks, p[..k + 1]);
      }
    }
  }

  /** What is reported as left out was not touched: the destination there is as it was before. */
  lemma {:induction false} ReportedUntouched(s: Src, there: Option<Tree>, skipLinks: bool, p: Path)
    requires LeftOut(s, there, skipLinks, p)
    ensures TreeAt(Merged(s, there, skipLinks), p) == TreeAt(there, p)
    decreases |p|
  {
    if p != [] {
      var d := if there.None? then map[] else there.value.kids;
      MergedKidsAt(s, d, p[0], skipLinks);
      ReportedUntouched(s.kids[p[0]], Get(d, p[0]), skipLinks, p[1..]);
      if there.None? {
        NothingAt(p[1..]);
      }
    }
  }

  lemma {:induction false} NothingAt(p: Path)
    ensures TreeAt(None, p) == None
  {
  }

  /** A destination entry stays exactly as it was when the source has no entry at its path, when
      it is a link, or when a link stands on the way to it. */
  lemma {:induction false} UnnamedUntouched(s: Src, there: Option<Tree>, skipLinks: bool, p: Path)
    requires TreeAt(there, p).Some?
    requires SrcAt(s, p).None? || TreeAt(there, p).value.LinkT?
    ensures TreeAt(Merged(s, there, skipLinks), p) == TreeAt(there, p)
    decreases |p|
  {
    if p != [] && s.SDir? {
      var d := there.value.kids;
      MergedKidsAt(s, d, p[0], skipLinks);
      if p[0] in s.kids {
        UnnamedUntouched(s.kids[p[0]], Get(d, p[0]), skipLinks, p[1..]);
      }
    }
  }

  /** What the merge makes of the source entry at `p`, by the two kinds that meet there, where directories or
      nothing are on the way to it at the destination. */
  lemma {:induction false} MergedIs(s: Src, there: Option<Tree>, skipLinks: bool, p: Path)
    requires SrcAt(s, p).Some?
    requires forall k | 0 <= k < |p| :: TreeAt(there, p[..k]).Some? ==> TreeAt(there, p[..k]).value.DirT?
    ensures
      var x, t, m := SrcAt(s, p).value, TreeAt(there, p), TreeAt(Merged(s, there, skipLinks), p);
      var reported := LeftOut(s, there, skipLinks, p);
      if x.SFile? && (t.Some? ==> t.value.FileT?) then m == Some(FileT(x.data)) && !reported
      else if x.SLink? && t.None? && !skipLinks then m == Some(LinkT(x.text)) && !reported
      else if x.SDir? && (t.Some? ==> t.value.DirT?) then m.Some? && m.value.DirT? && !reported
      else m == t && (reported <==> !(x.SSpecial? || x.SDest?) || (t.Some? && t.value.LinkT?))
    decreases |p|
  {
    if p != [] {
      assert TreeAt(there, p[..0]) == there;
      var d := if there.None? then map[] else there.value.kids;
      var n := p[0];
      MergedKidsAt(s, d, n, skipLinks);
      forall k | 0 <= k < |p| - 1
        ensures TreeAt(Get(d, n), p[1..][..k]).Some? ==> TreeAt(Get(d, n), p[1..][..k]).value.DirT?
      {
        assert p[..k + 1][1..] == p[1..][..k] && p[..k + 1][0] == n;
        NothingAt(p[1..][..k]);
        assert TreeAt(there, p[..k + 1]) == TreeAt(Get(d, n), p[1..][..k]);
      }
      NothingAt(p[1..]);
      MergedIs(s.kids[n], Get(d, n), skipLinks, p[1..]);
    }
  }

  /** Nothing else is reported. */
  lemma {:induction false} ReportedIs(s: Src, there: Option<Tree>, skipLinks: bool, p: Path, k: nat)
    requires LeftOut(s, there, skipLinks, p) && k < |p|
    ensures SrcAt(s, p).Some?
    ensures TreeAt(there, p[..k]).Some? ==> TreeAt(there, p[..k]).value.DirT?
    decreases |p|
  {
    var d := if there.None? then map[] else there.value.kids;
    var rest := p[1..];
    if rest != [] {
      ReportedIs(s.kids[p[0]], Get(d, p[0]), skipLinks, rest, if k == 0 then 0 else k - 1);
    }
    if k > 0 {
      assert p[..k][1..] == rest[..k - 1] && p[..k][0] == p[0];
      NothingAt(rest[..k - 1]);
    } else {
      assert p[..0] == [];
    }
  }

  // --- a plain tree as a source --------------------------------------------------------

  /** A tree as a copy that follows nothing reads it. */
  function AsSrc(t: Tree): Src {
    match t
    case FileT(data) => SFile(data)
    case LinkT(text) => SLink(text)
    case SpecialT => SSpecial
    case DirT(kids) => SDir(map n | n in kids :: AsSrc(kids[n]))
  }

  /** The tree holds only files, links, and directories. */
  predicate Plain(t: Tree) {
    !t.SpecialT? && (t.DirT? ==> forall n | n in t.kids :: Plain(t.kids[n]))
  }

  /** The tree less its special files: what a copy carries. */
  function Carried(t: Tree): Option<Tree> {
    match t
    case SpecialT => None
    case DirT(kids) => Some(DirT(map n | n in kids && Carried(kids[n]).Some? :: Carried(kids[n]).value))
    case _ => Some(t)
  }

  predicate PlainKids(kids: map<Name, Tree>) {
    forall n | n in kids :: Plain(kids[n])
  }

  /** Copied to where nothing is, a tree arrives less its special files and nothing is reported. */
  lemma {:induction false} CopyToAbsent(t: Tree)
    ensures Merged(AsSrc(t), None, false) == Carried(t)
    ensures forall p :: !LeftOut(AsSrc(t), None, false, p)
    decreases t
  {
    match t
    case DirT(kids) =>
      var s := AsSrc(t);
      forall n | n in kids
        ensures Merged(s.kids[n], None, false) == Carried(kids[n])
        ensures forall p :: !LeftOut(s.kids[n], None, false, p)
      {
        CopyToAbsent(kids[n]);
      }
      assert MergedKids(s, map[], false) == Carried(t).value.kids;
    case _ =>
  }

  /** A copy carries the whole tree iff the tree holds no special file. */
  lemma {:induction false} CarriedWhole(t: Tree)
    ensures Carried(t) == Some(t) <==> Plain(t)
    decreases t
  {
    match t
    case DirT(kids) =>
      forall n | n in kids ensures Carried(kids[n]) == Some(kids[n]) <==> Plain(kids[n]) {
        CarriedWhole(kids[n]);
      }
      var c := Carried(t).value.kids;
      if c == kids {
        forall n | n in kids ensures Plain(kids[n]) {
          assert n in c;
          assert c[n] == kids[n];
        }
      }
      if Plain(t) {
        assert c == kids;
      }
    case _ =>
  }

  /** Merging a plain directory into one that shares no name with it is a disjoint union. */
  lemma CopyDisjoint(src: map<Name, Tree>, dst: map<Name, Tree>)
    requires PlainKids(src)
    requires src.Keys !! dst.Keys
    ensures MergedKids(AsSrc(DirT(src)), dst, false) == dst + src
    ensures forall p :: !LeftOut(AsSrc(DirT(src)), Some(DirT(dst)), false, p)
  {
    var s := AsSrc(DirT(src));
    forall n | n in src
      ensures Merged(s.kids[n], None, false) == Some(src[n])
      ensures forall p :: !LeftOut(s.kids[n], None, false, p)
    {
      CopyToAbsent(src[n]);
      CarriedWhole(src[n]);
    }
    var m := MergedKids(s, dst, false);
    var u := dst + src;
    forall n ensures Get(m, n) == Get(u, n) {
      MergedKidsAt(s, dst, n, false);
    }
    forall n ensures n in m <==> n in u {
      assert Get(m, n) == Get(u, n);
    }
    assert m == u by {
      forall n | n in m ensures m[n] == u[n] {
        assert Get(m, n) == Get(u, n);
      }
    }
  }
}
