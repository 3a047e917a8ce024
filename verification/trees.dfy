/** The tree below a directory, twice: as inodes (what the kernel holds) and as a value
    (what a reader of the box sees).  `Rep` ties the two together. */
module Trees {
  import opened Options

  type Name = string
  type Path = seq<Name>
  type Bytes = seq<bv8>
  type Ino = nat

  /** One inode.  `Special` stands for a FIFO, a socket, or a device. */
  datatype Node =
    | File(data: Bytes)
    | Link(text: string)
    | Special
    | Dir(entries: map<Name, Ino>)

  type Nodes = map<Ino, Node>

  /** What an entry holds, with the inode numbers forgotten. */
  datatype Tree =
    | FileT(data: Bytes)
    | LinkT(text: string)
    | SpecialT
    | DirT(kids: map<Name, Tree>)

  /** The directory entries of inode `i`; none when it is not a directory. */
  function Entries(nodes: Nodes, i: Ino): map<Name, Ino> {
    if i in nodes && nodes[i].Dir? then nodes[i].entries else map[]
  }

  predicate IsDir(nodes: Nodes, i: Ino) {
    i in nodes && nodes[i].Dir?
  }

  function Get(kids: map<Name, Tree>, n: Name): Option<Tree> {
    if n in kids then Some(kids[n]) else None
  }

  /** Inode `i` holds exactly the tree `t`. */
  ghost predicate Rep(nodes: Nodes, i: Ino, t: Tree)
    decreases t
  {
    i in nodes &&
    match t
    case FileT(data) => nodes[i] == File(data)
    case LinkT(text) => nodes[i] == Link(text)
    case SpecialT => nodes[i] == Special
    case DirT(kids) =>
      && nodes[i].Dir?
      && nodes[i].entries.Keys == kids.Keys
      && forall n | n in kids :: Rep(nodes, nodes[i].entries[n], kids[n])
  }

  /** `j` is one of the directories of the tree `t` at `i`: what a change inside it may write. */
  ghost predicate Owns(nodes: Nodes, i: Ino, t: Tree, j: Ino)
    decreases t
  {
    t.DirT? && (j == i || exists n | n in t.kids :: OwnsName(nodes, i, t, n, j))
  }

  /** `j` is one of the directories below the name `n` of the tree `t` at `i`. */
  ghost predicate OwnsName(nodes: Nodes, i: Ino, t: Tree, n: Name, j: Ino)
    requires t.DirT? && n in t.kids
    decreases t, 0
  {
    n in Entries(nodes, i) && Owns(nodes, Entries(nodes, i)[n], t.kids[n], j)
  }

  /** No directory inode occurs twice in the tree at `i` (files may be hard-linked). */
  ghost predicate Sep(nodes: Nodes, i: Ino, t: Tree)
    decreases t
  {
    t.DirT? ==>
      && (forall n | n in t.kids && n in Entries(nodes, i) :: Sep(nodes, Entries(nodes, i)[n], t.kids[n]))
      && (forall n | n in t.kids :: !OwnsName(nodes, i, t, n, i))
      && (forall m, n, j | m in t.kids && n in t.kids && m != n ::
            !(OwnsName(nodes, i, t, m, j) && OwnsName(nodes, i, t, n, j)))
  }

  /** `i` is a directory whose tree is `kids`, each of its directory inodes once. */
  ghost predicate IsTree(nodes: Nodes, i: Ino, kids: map<Name, Tree>) {
    Rep(nodes, i, DirT(kids)) && Sep(nodes, i, DirT(kids))
  }

  /** Only the directories in `writes` may differ: every other inode, and every file, link, and
      special file whatever directory names it, is as it was; no inode is taken away. */
  ghost predicate OnlyWrites(before: Nodes, after: Nodes, writes: set<Ino>) {
    && (forall i | i in before :: i in after)
    && (forall i | i in before && (i !in writes || !before[i].Dir?) :: after[i] == before[i])
    && (forall i | i in before && before[i].Dir? :: after[i].Dir?)
  }

  lemma OnlyWritesTrans(a: Nodes, b: Nodes, c: Nodes, w: set<Ino>, v: set<Ino>)
    requires OnlyWrites(a, b, w) && OnlyWrites(b, c, v)
    requires forall i | i in v && i in a :: i in w
    ensures OnlyWrites(a, c, w)
  {
  }

  /** What a represented tree owns are existing directories. */
  lemma {:induction false} OwnsDirs(nodes: Nodes, i: Ino, t: Tree, j: Ino)
    requires Rep(nodes, i, t) && Owns(nodes, i, t, j)
    ensures IsDir(nodes, j)
    decreases t
  {
    if j != i {
      var n :| n in t.kids && OwnsName(nodes, i, t, n, j);
      OwnsDirs(nodes, nodes[i].entries[n], t.kids[n], j);
    }
  }

  /** A change that writes none of a tree's directories leaves the tree as it was. */
  lemma {:induction false} FrameRep(before: Nodes, after: Nodes, i: Ino, t: Tree, writes: set<Ino>)
    requires Rep(before, i, t)
    requires OnlyWrites(before, after, writes)
    requires forall j | j in writes :: !Owns(before, i, t, j)
    ensures Rep(after, i, t)
    decreases t
  {
    match t
    case DirT(kids) =>
      assert Owns(before, i, t, i);
      forall n | n in kids
        ensures Rep(after, before[i].entries[n], kids[n])
      {
        forall j | j in writes ensures !Owns(before, before[i].entries[n], kids[n], j) {
          assert OwnsName(before, i, t, n, j) ==> Owns(before, i, t, j);
        }
        FrameRep(before, after, before[i].entries[n], kids[n], writes);
      }
    case _ =>
  }

  lemma {:induction false} FrameOwns(before: Nodes, after: Nodes, i: Ino, t: Tree, writes: set<Ino>, k: Ino)
    requires Rep(before, i, t)
    requires OnlyWrites(before, after, writes)
    requires forall j | j in writes :: !Owns(before, i, t, j)
    ensures Owns(after, i, t, k) <==> Owns(before, i, t, k)
    decreases t
  {
    match t
    case DirT(kids) =>
      assert Owns(before, i, t, i);
      forall n | n in kids
        ensures OwnsName(after, i, t, n, k) <==> OwnsName(before, i, t, n, k)
      {
        forall j | j in writes ensures !Owns(before, before[i].entries[n], kids[n], j) {
          assert OwnsName(before, i, t, n, j) ==> Owns(before, i, t, j);
        }
        FrameOwns(before, after, before[i].entries[n], kids[n], writes, k);
      }
    case _ =>
  }

  lemma {:induction false} FrameSep(before: Nodes, after: Nodes, i: Ino, t: Tree, writes: set<Ino>)
    requires Rep(before, i, t) && Sep(before, i, t)
    requires OnlyWrites(before, after, writes)
    requires forall j | j in writes :: !Owns(before, i, t, j)
    ensures Sep(after, i, t)
    decreases t
  {
    match t
    case DirT(kids) =>
      assert Owns(before, i, t, i);
      forall n | n in kids
        ensures Sep(after, before[i].entries[n], kids[n])
        ensures forall k :: OwnsName(after, i, t, n, k) <==> OwnsName(before, i, t, n, k)
      {
        forall j | j in writes ensures !Owns(before, before[i].entries[n], kids[n], j) {
          assert OwnsName(before, i, t, n, j) ==> Owns(before, i, t, j);
        }
        FrameSep(before, after, before[i].entries[n], kids[n], writes);
        forall k ensures OwnsName(after, i, t, n, k) <==> OwnsName(before, i, t, n, k) {
          FrameOwns(before, after, before[i].entries[n], kids[n], writes, k);
        }
      }
    case _ =>
  }

  /** `k` is a directory the name `n` of the tree at `i` owns; none when there is no such name. */
  ghost predicate NameOwns(nodes: Nodes, i: Ino, kids: map<Name, Tree>, n: Name, k: Ino) {
    n in kids && OwnsName(nodes, i, DirT(kids), n, k)
  }

  /** What a change of the name `n` in directory `i` may write. */
  ghost predicate WritesOnlyName(nodes: Nodes, i: Ino, kids: map<Name, Tree>, n: Name, writes: set<Ino>) {
    forall k | k in writes :: k == i || NameOwns(nodes, i, kids, n, k)
  }

  /** A change at the name `n` leaves the tree of every other name as it was. */
  lemma Siblings(before: Nodes, after: Nodes, i: Ino, kids: map<Name, Tree>, n: Name, m: Name, writes: set<Ino>)
    requires IsTree(before, i, kids)
    requires OnlyWrites(before, after, writes) && WritesOnlyName(before, i, kids, n, writes)
    requires m in kids && m != n
    requires IsDir(after, i) && m in Entries(after, i) && Entries(after, i)[m] == Entries(before, i)[m]
    ensures Rep(after, Entries(before, i)[m], kids[m]) && Sep(after, Entries(before, i)[m], kids[m])
    ensures forall k :: OwnsName(after, i, DirT(kids), m, k) <==> OwnsName(before, i, DirT(kids), m, k)
  {
    var c := Entries(before, i)[m];
    forall w | w in writes ensures !Owns(before, c, kids[m], w) {
      assert Owns(before, c, kids[m], w) ==> OwnsName(before, i, DirT(kids), m, w);
    }
    FrameRep(before, after, c, kids[m], writes);
    FrameSep(before, after, c, kids[m], writes);
    forall k ensures OwnsName(after, i, DirT(kids), m, k) <==> OwnsName(before, i, DirT(kids), m, k) {
      FrameOwns(before, after, c, kids[m], writes, k);
    }
  }

  /** Pointing one name of a tree at another tree, built from what that name owned and from new
      inodes, changes exactly that name. */
  lemma Graft(before: Nodes, after: Nodes, i: Ino, kids: map<Name, Tree>, n: Name, j: Ino, t: Tree, writes: set<Ino>)
    requires IsTree(before, i, kids)
    requires OnlyWrites(before, after, writes) && WritesOnlyName(before, i, kids, n, writes)
    requires IsDir(after, i) && Entries(after, i) == Entries(before, i)[n := j]
    requires Rep(after, j, t) && Sep(after, j, t)
    requires forall k | Owns(after, j, t, k) :: NameOwns(before, i, kids, n, k) || k !in before
    ensures IsTree(after, i, kids[n := t])
    ensures forall k | Owns(after, i, DirT(kids[n := t]), k) :: Owns(before, i, DirT(kids), k) || k !in before
  {
    var v := DirT(kids[n := t]);
    forall m | m in v.kids
      ensures Rep(after, Entries(after, i)[m], v.kids[m]) && Sep(after, Entries(after, i)[m], v.kids[m])
    {
      if m != n {
        Siblings(before, after, i, kids, n, m, writes);
      }
    }
    forall m, k | m in v.kids && OwnsName(after, i, v, m, k)
      ensures NameOwns(before, i, kids, m, k) || (m == n && k !in before)
    {
      if m != n {
        Siblings(before, after, i, kids, n, m, writes);
        assert OwnsName(after, i, DirT(kids), m, k);
      }
    }
    forall m, k | NameOwns(before, i, kids, m, k) ensures k in before {
      OwnsDirs(before, Entries(before, i)[m], kids[m], k);
    }
    GraftSep(before, after, i, kids, n, t);
  }

  lemma GraftSep(before: Nodes, after: Nodes, i: Ino, kids: map<Name, Tree>, n: Name, t: Tree)
    requires i in before && Sep(before, i, DirT(kids))
    requires forall m | m in kids[n := t] && m in Entries(after, i) :: Sep(after, Entries(after, i)[m], kids[n := t][m])
    requires forall m, k | m in kids[n := t] && OwnsName(after, i, DirT(kids[n := t]), m, k) ::
               NameOwns(before, i, kids, m, k) || (m == n && k !in before)
    requires forall m, k | NameOwns(before, i, kids, m, k) :: k in before
    ensures Sep(after, i, DirT(kids[n := t]))
    ensures forall k | Owns(after, i, DirT(kids[n := t]), k) :: Owns(before, i, DirT(kids), k) || k !in before
  {
    var v := DirT(kids[n := t]);
    forall m | m in v.kids ensures !OwnsName(after, i, v, m, i) {
      assert !NameOwns(before, i, kids, m, i);
    }
    forall l, m, k | l in v.kids && m in v.kids && l != m
      ensures !(OwnsName(after, i, v, l, k) && OwnsName(after, i, v, m, k))
    {
      assert !(NameOwns(before, i, kids, l, k) && NameOwns(before, i, kids, m, k));
      assert NameOwns(before, i, kids, l, k) ==> k in before;
      assert NameOwns(before, i, kids, m, k) ==> k in before;
    }
    forall k | Owns(after, i, v, k)
      ensures Owns(before, i, DirT(kids), k) || k !in before
    {
      if k != i {
        var m :| m in v.kids && OwnsName(after, i, v, m, k);
        assert NameOwns(before, i, kids, m, k) || k !in before;
      }
    }
  }

  /** Dropping one name of a tree leaves the other names as they were. */
  lemma Prune(before: Nodes, after: Nodes, i: Ino, kids: map<Name, Tree>, n: Name, writes: set<Ino>)
    requires IsTree(before, i, kids)
    requires OnlyWrites(before, after, writes) && WritesOnlyName(before, i, kids, n, writes)
    requires IsDir(after, i) && Entries(after, i) == Entries(before, i) - {n}
    ensures IsTree(after, i, kids - {n})
    ensures forall k | Owns(after, i, DirT(kids - {n}), k) :: Owns(before, i, DirT(kids), k)
  {
    var u, v := DirT(kids), DirT(kids - {n});
    forall m | m in kids && m != n
      ensures Rep(after, Entries(after, i)[m], v.kids[m]) && Sep(after, Entries(after, i)[m], v.kids[m])
      ensures forall k :: OwnsName(after, i, v, m, k) <==> OwnsName(before, i, u, m, k)
    {
      Siblings(before, after, i, kids, n, m, writes);
    }
  }
}
