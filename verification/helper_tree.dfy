/** The helpers on disk below a box, and the walk that lists them: a stack of open levels. */
module HelperTree {
  import opened Collections
  import opened Decimal
  import opened Options

  /** A `helpers/` directory: its entries in the order they are listed, or none, or no way to tell. */
  datatype Level = Readable(entries: seq<(string, Entry)>) | Missing | Unreadable

  /** An entry: a directory with its own `helpers/`, something else (a file, a link, gone by now), or
      one whose kind cannot be read. */
  datatype Entry = Helper(sub: Level) | Other | Broken

  /** The names on the way to a helper, one a level. */
  type Place = seq<string>

  predicate IsNumber(name: string) {
    name != [] && AllDigits(name)
  }

  function Lookup(entries: seq<(string, Entry)>, name: string): Option<Entry> {
    if entries == [] then None
    else if entries[0].0 == name then Some(entries[0].1)
    else Lookup(entries[1..], name)
  }

  // --- one level -----------------------------------------------------------------------

  predicate Sorted(s: seq<nat>) {
    forall i, j | 0 <= i < j < |s| :: s[i] <= s[j]
  }

  function Insert(n: nat, s: seq<nat>): (r: seq<nat>)
    ensures multiset(r) == multiset(s) + multiset{n}
  {
    if s == [] || n <= s[0] then [n] + s
    else
      assert s == [s[0]] + s[1..];
      [s[0]] + Insert(n, s[1..])
  }

  function Sort(s: seq<nat>): (r: seq<nat>)
    ensures multiset(r) == multiset(s)
  {
    if s == [] then []
    else
      assert s == [s[0]] + s[1..];
      Insert(s[0], Sort(s[1..]))
  }

  /** The numbers of the entries that are helpers, in listing order; `None` if one cannot be read. */
  function Found(entries: seq<(string, Entry)>): Option<seq<nat>> {
    if entries == [] then Some([])
    else
      var last := entries[|entries| - 1];
      var before := Found(entries[..|entries| - 1]);
      if before.None? || !IsNumber(last.0) then before
      else match last.1
        case Helper(_) => Some(before.value + [Parse(last.0)])
        case Other => before
        case Broken => None
  }

  function Numbers(level: Level): Option<seq<nat>> {
    match level
    case Missing => Some([])
    case Unreadable => None
    case Readable(entries) => if Found(entries).None? then None else Some(Sort(Found(entries).value))
  }

  method ExistingHelpers(level: Level) returns (r: Option<seq<nat>>)
    ensures r == Numbers(level)
  {
    if level.Missing? { return Some([]); }
    if level.Unreadable? { return None; }
    var entries, found := level.entries, [];
    for i := 0 to |entries|
      invariant Found(entries[..i]) == Some(found)
    {
      var (name, entry) := entries[i];
      assert entries[..i + 1][..i] == entries[..i];
      if IsNumber(name) {
        if entry.Broken? {
          NoneStays(entries, i + 1);
          return None;
        }
        if entry.Helper? {
          found := found + [Parse(name)];
        }
      }
    }
    assert entries[..|entries|] == entries;
    r := Some(Sort(found));
  }

  lemma {:induction false} NoneStays(entries: seq<(string, Entry)>, k: nat)
    requires k <= |entries| && Found(entries[..k]).None?
    ensures Found(entries).None?
    decreases |entries| - k
  {
    if k == |entries| {
      assert entries[..k] == entries;
    } else {
      assert entries[..k + 1][..k] == entries[..k];
      NoneStays(entries, k + 1);
    }
  }

  // --- the tree ------------------------------------------------------------------------

  /** The `helpers/` of helper `num`: looked up by the number, written in decimal. */
  function Sub(level: Level, num: nat): (sub: Level)
    ensures sub.Missing? || sub < level
  {
    if level.Readable? && Lookup(level.entries, Render(num)).Some? && Lookup(level.entries, Render(num)).value.Helper?
    then
      LookupSmaller(level.entries, Render(num));
      Lookup(level.entries, Render(num)).value.sub
    else Missing
  }

  lemma {:induction false} LookupSmaller(entries: seq<(string, Entry)>, name: string)
    requires Lookup(entries, name).Some?
    ensures exists i :: 0 <= i < |entries| && entries[i] == (name, Lookup(entries, name).value)
  {
    if entries[0].0 != name {
      LookupSmaller(entries[1..], name);
      var i :| 0 <= i < |entries| - 1 && entries[1..][i] == (name, Lookup(entries[1..], name).value);
      assert entries[i + 1] == entries[1..][i];
    } else {
      assert entries[0] == (name, entries[0].1);
    }
  }

  /** Every helper below `level`, each after the helpers below it; `None` if a level is unreadable. */
  function Post(level: Level, at: Place): Option<seq<Place>>
    decreases level, 1, 0
  {
    if Numbers(level).None? then None else PostRest(level, at, Numbers(level).value)
  }

  function PostSub(level: Level, at: Place, num: nat): Option<seq<Place>>
    decreases level, 0, 0
  {
    if Sub(level, num).Missing? then Some([]) else Post(Sub(level, num), at + [Render(num)])
  }

  function PostRest(level: Level, at: Place, nums: seq<nat>): Option<seq<Place>>
    decreases level, 0, |nums| + 1
  {
    if nums == [] then Some([])
    else
      var below, after := PostSub(level, at, nums[0]), PostRest(level, at, nums[1..]);
      if below.None? || after.None? then None
      else Some(below.value + [at + [Render(nums[0])]] + after.value)
  }

  // --- the walk ------------------------------------------------------------------------

  /** An open level: its place, the numbers not visited yet, and the helper that owns it. */
  datatype Frame = Frame(level: Level, at: Place, nums: seq<nat>, owner: Option<Place>)

  function Join(a: Option<seq<Place>>, b: Option<seq<Place>>): Option<seq<Place>> {
    if a.Some? && b.Some? then Some(a.value + b.value) else None
  }

  function Owned(f: Frame): seq<Place> {
    if f.owner.Some? then [f.owner.value] else []
  }

  /** What the open levels, the last first, still have to give. */
  function Rest(stack: seq<Frame>): Option<seq<Place>> {
    if stack == [] then Some([])
    else
      var f := stack[|stack| - 1];
      Join(Join(PostRest(f.level, f.at, f.nums), Some(Owned(f))), Rest(stack[..|stack| - 1]))
  }

  /** How many turns a level takes ... */
  function Turns(level: Level): nat
    decreases level, 1, 0
  {
    1 + if Numbers(level).None? then 0 else TurnsRest(level, Numbers(level).value)
  }

  function TurnsSub(level: Level, num: nat): nat
    decreases level, 0, 0
  {
    if Sub(level, num).Missing? then 1 else Turns(Sub(level, num))
  }

  function TurnsRest(level: Level, nums: seq<nat>): nat
    decreases level, 0, |nums| + 1
  {
    if nums == [] then 0 else 1 + TurnsSub(level, nums[0]) + TurnsRest(level, nums[1..])
  }

  /** ... and the open levels. */
  function TurnsLeft(stack: seq<Frame>): nat {
    if stack == [] then 0
    else
      var f := stack[|stack| - 1];
      1 + TurnsRest(f.level, f.nums) + TurnsLeft(stack[..|stack| - 1])
  }

  /** A level is done: its owner comes next. */
  lemma LevelDone(under: seq<Frame>, f: Frame, found: seq<Place>)
    requires f.nums == []
    ensures Join(Some(found), Rest(under + [f])) == Join(Some(found + Owned(f)), Rest(under))
    ensures TurnsLeft(under) < TurnsLeft(under + [f])
  {
    Top(under, f);
    assert [] + Owned(f) == Owned(f);
    if Rest(under).Some? {
      assert found + (Owned(f) + Rest(under).value) == found + Owned(f) + Rest(under).value;
    }
  }

  /** A helper is opened: the levels below it, itself, and then what its level still has. */
  lemma LevelOpened(under: seq<Frame>, f: Frame, sub: Frame)
    requires f.nums != [] && sub.at == f.at + [Render(f.nums[0])] && sub.owner == Some(sub.at)
    requires sub.level == Sub(f.level, f.nums[0]) && Numbers(sub.level) == Some(sub.nums)
    ensures
      var more := under + [f.(nums := f.nums[1..])] + [sub];
      Rest(more) == Rest(under + [f]) && TurnsLeft(more) < TurnsLeft(under + [f])
  {
    var g := f.(nums := f.nums[1..]);
    Top(under, f);
    Top(under, g);
    Top(under + [g], sub);
    assert PostSub(f.level, f.at, f.nums[0]) == PostRest(sub.level, sub.at, sub.nums);
    assert TurnsSub(f.level, f.nums[0]) == 1 + TurnsRest(sub.level, sub.nums);
    var below, after := PostRest(sub.level, sub.at, sub.nums), PostRest(f.level, f.at, g.nums);
    if below.Some? && after.Some? && Rest(under).Some? {
      Associate(below.value, [sub.at], after.value, Owned(f), Rest(under).value);
    }
  }

  lemma Top(under: seq<Frame>, f: Frame)
    ensures Rest(under + [f]) == Join(Join(PostRest(f.level, f.at, f.nums), Some(Owned(f))), Rest(under))
    ensures TurnsLeft(under + [f]) == 1 + TurnsRest(f.level, f.nums) + TurnsLeft(under)
  {
    assert (under + [f])[..|under|] == under;
  }

  lemma Associate(a: seq<Place>, b: seq<Place>, c: seq<Place>, d: seq<Place>, e: seq<Place>)
    ensures (a + b) + (c + d + e) == (a + b + c) + d + e
  {
  }

  /** What was found, and what the open levels still have to give, is what the recursion gives. */
  ghost predicate Walking(root: Level, stack: seq<Frame>, found: seq<Place>) {
    Join(Some(found), Rest(stack)) == Post(root, [])
  }

  /** The walk's own stack gives what the recursion gives, and it ends. */
  method Walk(root: Level) returns (r: Option<seq<Place>>)
    ensures r == Post(root, [])
  {
    var nums := ExistingHelpers(root);
    if nums.None? { return None; }
    var stack, found := [Frame(root, [], nums.value, None)], [];
    StartRest(root, nums.value);
    while stack != []
      invariant Walking(root, stack, found)
      decreases TurnsLeft(stack)
    {
      var read;
      stack, found, read := Turn(root, stack, found);
      if !read { return None; }
    }
    assert found + [] == found;
    r := Some(found);
  }

  /** One turn: the last open level is done, or its next helper is opened, if that can be read. */
  method Turn(ghost root: Level, stack: seq<Frame>, found: seq<Place>)
    returns (stack': seq<Frame>, found': seq<Place>, read: bool)
    requires stack != [] && Walking(root, stack, found)
    ensures read ==> Walking(root, stack', found') && TurnsLeft(stack') < TurnsLeft(stack)
    ensures !read ==> Post(root, []) == None
  {
    var under, f := stack[..|stack| - 1], stack[|stack| - 1];
    assert stack == under + [f];
    if f.nums == [] {
      LevelDone(under, f, found);
      return under, found + Owned(f), true;
    }
    var place := f.at + [Render(f.nums[0])];
    var child := Sub(f.level, f.nums[0]);
    var nums := ExistingHelpers(child);
    if nums.None? {
      RestIsNone(stack);
      return stack, found, false;
    }
    LevelOpened(under, f, Frame(child, place, nums.value, Some(place)));
    stack' := under + [f.(nums := f.nums[1..])] + [Frame(child, place, nums.value, Some(place))];
    found', read := found, true;
  }

  lemma StartRest(root: Level, nums: seq<nat>)
    requires Numbers(root) == Some(nums)
    ensures Walking(root, [Frame(root, [], nums, None)], [])
  {
    var stack := [Frame(root, [], nums, None)];
    assert stack[..0] == [];
    var p := PostRest(root, [], nums);
    if p.Some? {
      assert [] + (p.value + [] + []) == p.value;
    }
  }

  lemma RestIsNone(stack: seq<Frame>)
    requires stack != []
    requires var f := stack[|stack| - 1]; f.nums != [] && Numbers(Sub(f.level, f.nums[0])).None?
    ensures Rest(stack) == None
  {
    var f := stack[|stack| - 1];
    assert PostSub(f.level, f.at, f.nums[0]) == None;
  }

  // --- what the walk lists -------------------------------------------------------------

  /** The helper at `p` is on disk: at every level a directory whose name is a number. */
  predicate OnDisk(level: Level, p: Place)
    decreases |p|
  {
    && p != [] && level.Readable? && IsNumber(p[0])
    && Lookup(level.entries, p[0]).Some? && Lookup(level.entries, p[0]).value.Helper?
    && (|p| == 1 || OnDisk(Lookup(level.entries, p[0]).value.sub, p[1..]))
  }

  /** The walk lists `p`: at every level a number that is listed there, written in decimal. */
  predicate InWalk(level: Level, p: Place)
    decreases |p|
  {
    && p != [] && Canonical(p[0])
    && Numbers(level).Some? && Parse(p[0]) in Numbers(level).value
    && (|p| == 1 || InWalk(Sub(level, Parse(p[0])), p[1..]))
  }

  /** A directory lists each name once. */
  predicate Tidy(level: Level) {
    level.Readable? ==>
      && (forall i, j | 0 <= i < j < |level.entries| :: level.entries[i].0 != level.entries[j].0)
      && (forall i | 0 <= i < |level.entries| && level.entries[i].1.Helper? :: Tidy(level.entries[i].1.sub))
  }

  /** Every helper directory has the name its number is written as. */
  predicate CanonicalTree(level: Level) {
    level.Readable? ==>
      forall i | 0 <= i < |level.entries| && level.entries[i].1.Helper? && IsNumber(level.entries[i].0) ::
        Canonical(level.entries[i].0) && CanonicalTree(level.entries[i].1.sub)
  }

  lemma {:induction false} LookupAt(entries: seq<(string, Entry)>, i: nat)
    requires i < |entries| && forall j, k | 0 <= j < k < |entries| :: entries[j].0 != entries[k].0
    ensures Lookup(entries, entries[i].0) == Some(entries[i].1)
  {
    if i > 0 {
      LookupAt(entries[1..], i - 1);
    }
  }

  lemma {:induction false} InFound(entries: seq<(string, Entry)>, n: nat)
    requires Found(entries).Some?
    ensures n in Found(entries).value <==>
            exists i :: 0 <= i < |entries| && IsNumber(entries[i].0) && entries[i].1.Helper? && Parse(entries[i].0) == n
    decreases |entries|
  {
    if entries != [] {
      var front := entries[..|entries| - 1];
      InFound(front, n);
      if i :| 0 <= i < |front| && IsNumber(front[i].0) && front[i].1.Helper? && Parse(front[i].0) == n {
        assert entries[i] == front[i];
      }
      if i :| 0 <= i < |entries| && IsNumber(entries[i].0) && entries[i].1.Helper? && Parse(entries[i].0) == n {
        assert i < |front| ==> front[i] == entries[i];
      }
    }
  }

  lemma {:induction false} InsertSorted(n: nat, s: seq<nat>)
    requires Sorted(s)
    ensures Sorted(Insert(n, s))
  {
    if s != [] && n > s[0] {
      InsertSorted(n, s[1..]);
      var rest := Insert(n, s[1..]);
      forall k | 0 <= k < |rest| ensures s[0] <= rest[k] {
        assert rest[k] in multiset(rest);
        assert rest[k] == n || rest[k] in multiset(s[1..]);
      }
    }
  }

  lemma {:induction false} SortSorts(s: seq<nat>)
    ensures Sorted(Sort(s)) && forall n :: n in Sort(s) <==> n in s
  {
    if s != [] {
      SortSorts(s[1..]);
      InsertSorted(s[0], Sort(s[1..]));
    }
    forall n ensures n in Sort(s) <==> n in s {
      assert n in multiset(Sort(s)) <==> n in multiset(s);
    }
  }

  /** A number is listed iff some helper directory's name reads as it. */
  lemma Listed(level: Level, n: nat)
    requires level.Readable? && Numbers(level).Some?
    ensures n in Numbers(level).value <==>
            exists i :: 0 <= i < |level.entries| && IsNumber(level.entries[i].0) && level.entries[i].1.Helper?
                        && Parse(level.entries[i].0) == n
    ensures n in Numbers(level).value <==>
            exists i :: 0 <= i < |level.entries| && level.entries[i].1.Helper? && level.entries[i].0 != []
                        && (forall k | 0 <= k < |level.entries[i].0| :: '0' <= level.entries[i].0[k] <= '9')
                        && Parse(level.entries[i].0) == n
    ensures Sorted(Numbers(level).value)
  {
    InFound(level.entries, n);
    SortSorts(Found(level.entries).value);
  }

  // --- each place, and no other --------------------------------------------------------

  /** `p` is the place of helper `num` of a level at `at`, or below it in `sub`. */
  predicate Under(sub: Level, at: Place, num: nat, p: Place) {
    at + [Render(num)] <= p && (|p| == |at| + 1 || InWalk(sub, p[|at| + 1..]))
  }

  lemma {:induction false} PostHolds(level: Level, at: Place, p: Place)
    requires Post(level, at).Some?
    ensures p in Post(level, at).value <==> at < p && InWalk(level, p[|at|..])
    decreases level, 1, 0
  {
    var nums := Numbers(level).value;
    RestHolds(level, at, nums, p);
    if n: nat :| n in nums && Under(Sub(level, n), at, n, p) {
      UnderIsInWalk(level, at, n, p);
    }
    if at < p && InWalk(level, p[|at|..]) {
      InWalkIsUnder(level, at, p);
    }
  }

  lemma UnderIsInWalk(level: Level, at: Place, n: nat, p: Place)
    requires Numbers(level).Some? && n in Numbers(level).value && Under(Sub(level, n), at, n, p)
    ensures at < p && InWalk(level, p[|at|..])
  {
    ParseRender(n);
    assert p[|at|] == (at + [Render(n)])[|at|];
    assert p[|at|..][1..] == p[|at| + 1..];
  }

  lemma InWalkIsUnder(level: Level, at: Place, p: Place)
    requires at < p && InWalk(level, p[|at|..])
    ensures var n := Parse(p[|at|]); n in Numbers(level).value && Under(Sub(level, n), at, n, p)
  {
    var q := p[|at|..];
    RenderParse(q[0]);
    assert q[1..] == p[|at| + 1..];
    assert at + [Render(Parse(q[0]))] == p[..|at| + 1];
  }

  lemma {:induction false} RestHolds(level: Level, at: Place, nums: seq<nat>, p: Place)
    requires PostRest(level, at, nums).Some?
    ensures p in PostRest(level, at, nums).value <==> exists n: nat :: n in nums && Under(Sub(level, n), at, n, p)
    decreases level, 0, |nums|
  {
    if nums != [] {
      RestHolds(level, at, nums[1..], p);
      var n := nums[0];
      var place := at + [Render(n)];
      var below := PostSub(level, at, n).value;
      assert p in below || p == place <==> Under(Sub(level, n), at, n, p) by {
        if !Sub(level, n).Missing? {
          PostHolds(Sub(level, n), place, p);
        } else {
          NothingBelow(p[if |at| + 1 <= |p| then |at| + 1 else |p|..]);
        }
      }
      assert nums == [n] + nums[1..];
    }
  }

  lemma NothingBelow(p: Place)
    ensures !InWalk(Missing, p)
  {
  }

  /** A canonical name stands for itself. */
  lemma CanonicalSub(level: Level, name: string)
    requires level.Readable? && Canonical(name)
    requires Lookup(level.entries, name).Some? && Lookup(level.entries, name).value.Helper?
    ensures Sub(level, Parse(name)) == Lookup(level.entries, name).value.sub
  {
    RenderParse(name);
  }

  /** Where names are canonical, what is on disk is what the walk lists. */
  lemma {:induction false} SamePlaces(level: Level, at: Place, p: Place)
    requires Tidy(level) && CanonicalTree(level) && Post(level, at).Some?
    ensures OnDisk(level, p) <==> InWalk(level, p)
    decreases |p|
  {
    if p != [] && level.Readable? && IsNumber(p[0]) {
      var n := Parse(p[0]);
      Listed(level, n);
      if Lookup(level.entries, p[0]).Some? && Lookup(level.entries, p[0]).value.Helper? {
        LookupSmaller(level.entries, p[0]);
        CanonicalSub(level, p[0]);
        SubReadable(level, at, Numbers(level).value, n);
        if |p| > 1 {
          SamePlaces(Sub(level, n), at + [Render(n)], p[1..]);
        }
      } else if Canonical(p[0]) && n in Numbers(level).value {
        var i :| 0 <= i < |level.entries| && IsNumber(level.entries[i].0) && level.entries[i].1.Helper?
                 && Parse(level.entries[i].0) == n;
        RenderParse(level.entries[i].0);
        RenderParse(p[0]);
        LookupAt(level.entries, i);
      }
    }
  }

  /** A walk that succeeds has read every level it lists. */
  lemma {:induction false} SubReadable(level: Level, at: Place, nums: seq<nat>, n: nat)
    requires PostRest(level, at, nums).Some? && n in nums
    ensures PostSub(level, at, n).Some?
    ensures !Sub(level, n).Missing? ==> Post(Sub(level, n), at + [Render(n)]).Some?
    ensures Sub(level, n).Missing? ==> Post(Sub(level, n), at + [Render(n)]) == Some([])
  {
    if n != nums[0] {
      SubReadable(level, at, nums[1..], n);
    }
  }

  /** A helper whose name is not canonical, at some place on disk. */
  lemma {:induction false} OddPlace(level: Level) returns (p: Place)
    requires Tidy(level) && !CanonicalTree(level)
    ensures OnDisk(level, p) && exists k :: 0 <= k < |p| && !Canonical(p[k])
    decreases level
  {
    var i :| 0 <= i < |level.entries| && level.entries[i].1.Helper? && IsNumber(level.entries[i].0)
             && !(Canonical(level.entries[i].0) && CanonicalTree(level.entries[i].1.sub));
    var name := level.entries[i].0;
    LookupAt(level.entries, i);
    p := [name];
    if Canonical(name) {
      var below := OddPlace(level.entries[i].1.sub);
      p := [name] + below;
      assert p[1..] == below;
      var k :| 0 <= k < |below| && !Canonical(below[k]);
      assert p[k + 1] == below[k];
    }
  }

  lemma {:induction false} WalkIsCanonical(level: Level, p: Place)
    requires InWalk(level, p)
    ensures forall k | 0 <= k < |p| :: Canonical(p[k])
    decreases |p|
  {
    if |p| > 1 {
      WalkIsCanonical(Sub(level, Parse(p[0])), p[1..]);
      forall k | 0 <= k < |p| ensures Canonical(p[k]) {
        assert k > 0 ==> p[k] == p[1..][k - 1];
      }
    }
  }

  /** The walk lists every helper on disk and nothing else iff every helper directory carries the name
      its number is written as (a directory named "01" is listed as 1, and nothing below it is). */
  lemma WalkIsDisk(root: Level)
    requires Tidy(root) && Post(root, []).Some?
    ensures CanonicalTree(root) <==> forall p :: p in Post(root, []).value <==> OnDisk(root, p)
  {
    if CanonicalTree(root) {
      forall p ensures p in Post(root, []).value <==> OnDisk(root, p) {
        PostHolds(root, [], p);
        SamePlaces(root, [], p);
      }
    } else {
      var p := OddPlace(root);
      PostHolds(root, [], p);
      if InWalk(root, p) {
        WalkIsCanonical(root, p);
      }
    }
  }

  // --- once each, and in order ---------------------------------------------------------

  /** No place stands before one that is below it, or twice. */
  predicate DeepestFirst(places: seq<Place>) {
    forall i, j | 0 <= i < j < |places| :: !(places[i] <= places[j])
  }

  lemma {:induction false} FoundDistinct(entries: seq<(string, Entry)>)
    requires Found(entries).Some?
    requires forall i, j | 0 <= i < j < |entries| :: entries[i].0 != entries[j].0
    requires forall i | 0 <= i < |entries| && entries[i].1.Helper? && IsNumber(entries[i].0) :: Canonical(entries[i].0)
    ensures Distinct(Found(entries).value)
    decreases |entries|
  {
    if entries != [] {
      var front, last := entries[..|entries| - 1], entries[|entries| - 1];
      FoundDistinct(front);
      if IsNumber(last.0) && last.1.Helper? {
        InFound(front, Parse(last.0));
        RenderParse(last.0);
        forall i | 0 <= i < |front| && IsNumber(front[i].0) && front[i].1.Helper?
          ensures Parse(front[i].0) != Parse(last.0)
        {
          assert entries[i] == front[i];
          RenderParse(front[i].0);
        }
      }
    }
  }

  lemma DistinctByCount(a: seq<nat>, b: seq<nat>)
    requires Distinct(a) && multiset(a) == multiset(b)
    ensures Distinct(b)
  {
    forall n ensures multiset(a)[n] <= 1 {
      CountOne(a, n);
    }
    forall i, j | 0 <= i < j < |b| ensures b[i] != b[j] {
      assert b == b[..j] + [b[j]] + b[j + 1..];
      assert b[i] == b[..j][i];
      assert multiset(b)[b[j]] <= 1;
      assert b[i] in multiset(b[..j]) && b[j] !in multiset(b[..j]);
    }
  }

  lemma {:induction false} CountOne(a: seq<nat>, n: nat)
    requires Distinct(a)
    ensures multiset(a)[n] <= 1
  {
    if a != [] {
      CountOne(a[1..], n);
      assert a == [a[0]] + a[1..];
      if a[0] == n {
        assert n !in a[1..];
        assert n !in multiset(a[1..]);
      }
    }
  }

  lemma {:induction false} PostDeepestFirst(level: Level, at: Place)
    requires Tidy(level) && CanonicalTree(level) && Post(level, at).Some?
    ensures DeepestFirst(Post(level, at).value)
    decreases level, 1, 0
  {
    if level.Readable? {
      FoundDistinct(level.entries);
      DistinctByCount(Found(level.entries).value, Numbers(level).value);
    }
    RestDeepestFirst(level, at, Numbers(level).value);
  }

  lemma SubTidy(level: Level, n: nat)
    requires Tidy(level) && CanonicalTree(level)
    ensures Tidy(Sub(level, n)) && CanonicalTree(Sub(level, n))
  {
    if !Sub(level, n).Missing? {
      ParseRender(n);
      LookupSmaller(level.entries, Render(n));
    }
  }

  lemma {:induction false} RestDeepestFirst(level: Level, at: Place, nums: seq<nat>)
    requires Tidy(level) && CanonicalTree(level) && Distinct(nums) && PostRest(level, at, nums).Some?
    ensures DeepestFirst(PostRest(level, at, nums).value)
    decreases level, 0, |nums|
  {
    if nums != [] {
      var n := nums[0];
      var place := at + [Render(n)];
      var below, after := PostSub(level, at, n).value, PostRest(level, at, nums[1..]).value;
      RestDeepestFirst(level, at, nums[1..]);
      SubTidy(level, n);
      if !Sub(level, n).Missing? {
        PostDeepestFirst(Sub(level, n), place);
      }
      forall p | p in below ensures place < p {
        PostHolds(Sub(level, n), place, p);
      }
      forall p | p in after ensures |p| > |at| && p[|at|] != Render(n) {
        OtherNumber(level, at, nums[1..], n, p);
      }
      JoinDeepest(below, place, after, |at|);
    }
  }

  lemma OtherNumber(level: Level, at: Place, nums: seq<nat>, n: nat, p: Place)
    requires PostRest(level, at, nums).Some? && p in PostRest(level, at, nums).value && n !in nums
    ensures |p| > |at| && p[|at|] != Render(n)
  {
    RestHolds(level, at, nums, p);
    var m: nat :| m in nums && Under(Sub(level, m), at, m, p);
    assert p[|at|] == (at + [Render(m)])[|at|];
    if Render(m) == Render(n) {
      RenderInjective(m, n);
    }
  }

  lemma JoinDeepest(below: seq<Place>, place: Place, after: seq<Place>, k: nat)
    requires DeepestFirst(below) && DeepestFirst(after) && |place| == k + 1
    requires forall p | p in below :: place < p
    requires forall p | p in after :: |p| > k && p[k] != place[k]
    ensures DeepestFirst(below + [place] + after)
  {
    var all := below + [place] + after;
    forall i, j | 0 <= i < j < |all| ensures !(all[i] <= all[j]) {
      if i < |below| {
        assert all[i] in below && all[i][k] == place[k];
      }
      if j > |below| {
        assert all[j] in after;
      }
    }
  }

  // --- the counter ---------------------------------------------------------------------

  function Number(p: Place): nat
    requires p != [] && IsNumber(p[|p| - 1])
  {
    Parse(p[|p| - 1])
  }

  predicate Numbered(places: seq<Place>) {
    forall k | 0 <= k < |places| :: places[k] != [] && IsNumber(places[k][|places[k]| - 1])
  }

  function Largest(places: seq<Place>): (m: nat)
    requires Numbered(places)
    ensures forall k | 0 <= k < |places| :: Number(places[k]) <= m
  {
    if places == [] then 0
    else
      var m := Largest(places[1..]);
      if Number(places[0]) > m then Number(places[0]) else m
  }

  lemma PostNumbered(root: Level)
    requires Post(root, []).Some?
    ensures Numbered(Post(root, []).value)
  {
    forall k | 0 <= k < |Post(root, []).value|
      ensures var p := Post(root, []).value[k]; p != [] && IsNumber(p[|p| - 1])
    {
      var p := Post(root, []).value[k];
      PostHolds(root, [], p);
      WalkIsCanonical(root, p);
    }
  }

  // --- numbers the counter does not see ------------------------------------------------

  /** What is below a helper directory with an odd name has numbers up to `m` only; `hidden`: the level
      is itself below one. */
  predicate HiddenUpTo(level: Level, hidden: bool, m: nat) {
    level.Readable? ==>
      forall i | 0 <= i < |level.entries| && level.entries[i].1.Helper? && IsNumber(level.entries[i].0) ::
        && (hidden ==> Parse(level.entries[i].0) <= m)
        && HiddenUpTo(level.entries[i].1.sub, hidden || !Canonical(level.entries[i].0), m)
  }

  /** Some name on the way to the helper at `p` is odd. */
  predicate Hidden(p: Place) {
    exists k :: 0 <= k < |p| - 1 && !Canonical(p[k])
  }

  lemma {:induction false} DiskIsNumbered(level: Level, p: Place)
    requires OnDisk(level, p)
    ensures forall k | 0 <= k < |p| :: IsNumber(p[k])
    decreases |p|
  {
    if |p| > 1 {
      DiskIsNumbered(Lookup(level.entries, p[0]).value.sub, p[1..]);
      forall k | 0 <= k < |p| ensures IsNumber(p[k]) {
        assert k > 0 ==> p[k] == p[1..][k - 1];
      }
    }
  }

  /** The place as the walk writes it. */
  function Shown(p: Place): Place
    requires p != [] && IsNumber(p[|p| - 1])
  {
    p[..|p| - 1] + [Render(Number(p))]
  }

  lemma ShownBelow(p: Place)
    requires |p| > 1 && IsNumber(p[|p| - 1])
    ensures Shown(p)[0] == p[0] && Shown(p)[1..] == Shown(p[1..]) && |Shown(p)| == |p|
    ensures !Hidden(p) ==> Canonical(p[0]) && !Hidden(p[1..])
  {
    assert p[1..][|p| - 2] == p[|p| - 1];
    if k :| 0 <= k < |p[1..]| - 1 && !Canonical(p[1..][k]) {
      assert p[1..][k] == p[k + 1];
    }
  }

  lemma DiskIsListed(level: Level, p: Place)
    requires Tidy(level) && Numbers(level).Some? && OnDisk(level, p)
    ensures Parse(p[0]) in Numbers(level).value
  {
    LookupSmaller(level.entries, p[0]);
    Listed(level, Parse(p[0]));
  }

  lemma SubIsTidy(level: Level, name: string)
    requires Tidy(level) && level.Readable? && Lookup(level.entries, name).Some?
    requires Lookup(level.entries, name).value.Helper?
    ensures Tidy(Lookup(level.entries, name).value.sub)
  {
    LookupSmaller(level.entries, name);
  }

  /** A helper that is not below an odd name is listed, under its number's own name. */
  lemma {:induction false} ShownIsListed(level: Level, at: Place, p: Place)
    requires Tidy(level) && Post(level, at).Some? && OnDisk(level, p) && !Hidden(p) && IsNumber(p[|p| - 1])
    ensures InWalk(level, Shown(p))
    decreases |p|
  {
    var n := Parse(p[0]);
    DiskIsListed(level, p);
    if |p| == 1 {
      ParseRender(n);
      assert Shown(p) == [Render(n)];
    } else {
      ShownBelow(p);
      CanonicalSub(level, p[0]);
      SubIsTidy(level, p[0]);
      SubReadable(level, at, Numbers(level).value, n);
      ShownIsListed(Sub(level, n), at + [Render(n)], p[1..]);
    }
  }

  /** The bound on hidden numbers, place by place. */
  lemma {:induction false} HiddenUpToIs(level: Level, hidden: bool, m: nat, p: Place)
    requires HiddenUpTo(level, hidden, m) && OnDisk(level, p) && IsNumber(p[|p| - 1])
    ensures hidden || Hidden(p) ==> Number(p) <= m
    decreases |p|
  {
    LookupSmaller(level.entries, p[0]);
    var i :| 0 <= i < |level.entries| && level.entries[i] == (p[0], Lookup(level.entries, p[0]).value);
    if |p| > 1 {
      HiddenUpToIs(level.entries[i].1.sub, hidden || !Canonical(p[0]), m, p[1..]);
      if k :| 0 <= k < |p| - 1 && !Canonical(p[k]) {
        assert k > 0 ==> p[k] == p[1..][k - 1];
      }
    }
  }

  /** A hidden number beyond the bound, at some place on disk. */
  lemma {:induction false} HiddenBeyond(level: Level, hidden: bool, m: nat) returns (p: Place)
    requires Tidy(level) && !HiddenUpTo(level, hidden, m)
    ensures OnDisk(level, p) && IsNumber(p[|p| - 1]) && Number(p) > m && (hidden || Hidden(p))
    decreases level
  {
    var i :| 0 <= i < |level.entries| && level.entries[i].1.Helper? && IsNumber(level.entries[i].0)
             && !(&& (hidden ==> Parse(level.entries[i].0) <= m)
                  && HiddenUpTo(level.entries[i].1.sub, hidden || !Canonical(level.entries[i].0), m));
    var name := level.entries[i].0;
    LookupAt(level.entries, i);
    p := [name];
    if hidden ==> Parse(name) <= m {
      var below := HiddenBeyond(level.entries[i].1.sub, hidden || !Canonical(name), m);
      p := [name] + below;
      assert p[1..] == below;
      assert p[|p| - 1] == below[|below| - 1];
      if Hidden(below) {
        var k :| 0 <= k < |below| - 1 && !Canonical(below[k]);
        assert p[k + 1] == below[k];
      } else if !hidden {
        assert !Canonical(p[0]);
      }
    }
  }

  /** On disk, at `p`, is a helper of number `n`. */
  predicate HasNumber(root: Level, p: Place, n: nat) {
    OnDisk(root, p) && IsNumber(p[|p| - 1]) && Number(p) == n
  }

  /** The next number of a hub that starts is past every helper on disk if and only if what is below
      oddly named helper directories has no greater numbers than what is listed. */
  lemma SeededPastIff(root: Level)
    requires Tidy(root) && Post(root, []).Some?
    ensures Numbered(Post(root, []).value)
    ensures HiddenUpTo(root, false, Largest(Post(root, []).value)) <==>
            forall p, n: nat | HasNumber(root, p, n) :: n < Largest(Post(root, []).value) + 1
  {
    PostNumbered(root);
    var m := Largest(Post(root, []).value);
    if HiddenUpTo(root, false, m) {
      forall p, n: nat | HasNumber(root, p, n) ensures n <= m {
        if Hidden(p) {
          HiddenUpToIs(root, false, m, p);
        } else {
          ShownIsCounted(root, p);
        }
      }
    } else {
      var p := HiddenBeyond(root, false, m);
      assert HasNumber(root, p, Number(p));
    }
  }

  lemma ShownIsCounted(root: Level, p: Place)
    requires Tidy(root) && Post(root, []).Some? && Numbered(Post(root, []).value)
    requires OnDisk(root, p) && !Hidden(p) && IsNumber(p[|p| - 1])
    ensures Number(p) <= Largest(Post(root, []).value)
  {
    var q := Shown(p);
    ShownIsListed(root, [], p);
    PostHolds(root, [], q);
    assert q[0..] == q;
    ParseRender(Number(p));
    var places := Post(root, []).value;
    var i :| 0 <= i < |places| && places[i] == q;
  }

  /** Where every helper directory has its number's own name, nothing is hidden. */
  lemma {:induction false} CanonicalHidesNothing(level: Level, m: nat)
    requires CanonicalTree(level)
    ensures HiddenUpTo(level, false, m)
    decreases level
  {
    if level.Readable? {
      forall i | 0 <= i < |level.entries| && level.entries[i].1.Helper? && IsNumber(level.entries[i].0)
        ensures HiddenUpTo(level.entries[i].1.sub, false, m)
      {
        CanonicalHidesNothing(level.entries[i].1.sub, m);
      }
    }
  }

  /** A helper directory named "01", with helper 7 in it. */
  const ODD_TREE: Level := Readable([("01", Helper(Readable([("7", Helper(Missing))])))])

  /** Its inner level. */
  const ODD_INNER: Level := Readable([("7", Helper(Missing))])

  lemma OddTreeIs()
    ensures Tidy(ODD_TREE) && !HiddenUpTo(ODD_TREE, false, 1)
    ensures HasNumber(ODD_TREE, ["01", "7"], 7)
  {
    assert "7"[..0] == [] && Parse("7") == 7;
    assert !Canonical("01");
    assert ODD_TREE.entries[0] == ("01", Helper(ODD_INNER)) && ODD_INNER.entries[0] == ("7", Helper(Missing));
    assert !HiddenUpTo(ODD_INNER, true, 1);
    assert ["01", "7"][1..] == ["7"];
    assert OnDisk(ODD_INNER, ["7"]);
  }

  lemma OddTreeNumbers()
    ensures Numbers(ODD_TREE) == Some([1])
  {
    var entries := ODD_TREE.entries;
    var name := "01";
    assert name[..1] == ['0'] && ['0'][..0] == [];
    assert Parse(['0']) == 0;
    assert Parse(name) == 1;
    assert entries[|entries| - 1] == (name, Helper(ODD_INNER));
    assert entries[..|entries| - 1] == [];
    assert Found(entries).value == [] + [1] == [1];
    var nums: seq<nat> := [1];
    assert nums[1..] == [];
    assert Sort([]) == [] && Insert(1, []) == nums;
    assert Sort(nums) == nums;
  }

  /** What the walk lists of it. */
  const ODD_LIST: seq<Place> := [["1"]]

  /** Helper 1 is looked up as "1", which is not there. */
  lemma OddTreeSub()
    ensures Render(1) == "1" && Sub(ODD_TREE, 1) == Missing
  {
    assert ODD_TREE.entries[0].0 == "01" && "01" != "1";
    assert ODD_TREE.entries[1..] == [];
  }

  lemma OneListed(level: Level, at: Place, n: nat)
    requires Numbers(level) == Some([n]) && Sub(level, n) == Missing
    ensures Post(level, at) == Some([at + [Render(n)]])
  {
    var nums: seq<nat>, none: seq<Place>, place := [n], [], at + [Render(n)];
    assert nums[1..] == [];
    assert PostRest(level, at, []) == Some(none) && PostSub(level, at, n) == Some(none);
    assert none + [place] + none == [place];
  }

  lemma OddTreeWalk()
    ensures Post(ODD_TREE, []) == Some(ODD_LIST)
  {
    OddTreeNumbers();
    OddTreeSub();
    OneListed(ODD_TREE, [], 1);
    assert [] + ["1"] == ["1"];
  }

  /** The walk lists helper 1 alone, so a hub that starts there is to hand out 2 next; helper 7 is there. */
  lemma OddTreeIsMissed()
    ensures Post(ODD_TREE, []) == Some(ODD_LIST) && Numbered(ODD_LIST) && Largest(ODD_LIST) == 1
    ensures Tidy(ODD_TREE) && HasNumber(ODD_TREE, ["01", "7"], 7) && !HiddenUpTo(ODD_TREE, false, 1)
  {
    OddTreeIs();
    OddTreeWalk();
    assert "1"[..0] == [] && Parse("1") == 1;
    assert ODD_LIST[1..] == [] && Largest([]) == 0;
  }
}
