/** Which lines a request for sections leaves out. */
module Coverage {
  import opened Options
  import opened Keyspec

  datatype Gap = Gap(first: int, last: int, before: string, after: string)

  predicate Covers(s: Section, line: int) {
    s.start <= line <= s.end
  }

  predicate WellFormed(all: seq<Section>) {
    forall k | 0 <= k < |all| :: all[k].start <= all[k].end
  }

  // --- ordering ------------------------------------------------------------------------

  predicate Before(a: Section, b: Section) {
    a.start < b.start || (a.start == b.start && a.end <= b.end)
  }

  predicate Sorted(all: seq<Section>) {
    forall i, j | 0 <= i < j < |all| :: Before(all[i], all[j])
  }

  function Insert(s: Section, all: seq<Section>): (r: seq<Section>)
    ensures multiset(r) == multiset(all) + multiset{s}
  {
    if all == [] || Before(s, all[0]) then
      assert [s] + all == [s] + all;
      [s] + all
    else
      assert all == [all[0]] + all[1..];
      [all[0]] + Insert(s, all[1..])
  }

  lemma {:induction false} InsertSorted(s: Section, all: seq<Section>)
    requires Sorted(all)
    ensures Sorted(Insert(s, all))
  {
    if all != [] && !Before(s, all[0]) {
      InsertSorted(s, all[1..]);
      var rest := Insert(s, all[1..]);
      forall k | 0 <= k < |rest| ensures Before(all[0], rest[k]) {
        assert rest[k] in multiset(rest);
        assert rest[k] in multiset(all[1..]) || rest[k] == s;
      }
    }
  }

  function Sort(all: seq<Section>): (r: seq<Section>)
    ensures multiset(r) == multiset(all)
  {
    if all == [] then []
    else
      assert all == [all[0]] + all[1..];
      Insert(all[0], Sort(all[1..]))
  }

  lemma {:induction false} SortSorts(all: seq<Section>)
    ensures Sorted(Sort(all)) && |Sort(all)| == |all|
    ensures forall s :: s in Sort(all) <==> s in all
  {
    if all != [] {
      SortSorts(all[1..]);
      InsertSorted(all[0], Sort(all[1..]));
    }
    assert |multiset(Sort(all))| == |multiset(all)|;
    forall s ensures s in Sort(all) <==> s in all {
      assert s in multiset(Sort(all)) <==> s in multiset(all);
    }
  }

  /** Some requested section asks for the line. */
  predicate Asked(all: seq<Section>, line: int) {
    all != [] && (Covers(all[0], line) || Asked(all[1..], line))
  }

  lemma {:induction false} AskedBy(all: seq<Section>, line: int)
    ensures Asked(all, line) <==> exists k :: 0 <= k < |all| && Covers(all[k], line)
  {
    if all != [] {
      AskedBy(all[1..], line);
      if k :| 0 <= k < |all| && Covers(all[k], line) {
        assert k > 0 ==> Covers(all[1..][k - 1], line);
      }
      if k :| 0 <= k < |all| - 1 && Covers(all[1..][k], line) {
        assert Covers(all[k + 1], line);
      }
    }
  }

  lemma SameAsked(a: seq<Section>, b: seq<Section>, line: int)
    requires forall s :: s in b <==> s in a
    ensures Asked(a, line) <==> Asked(b, line)
  {
    AskedBy(a, line);
    AskedBy(b, line);
    if k :| 0 <= k < |a| && Covers(a[k], line) {
      assert a[k] in b;
    }
    if k :| 0 <= k < |b| && Covers(b[k], line) {
      assert b[k] in a;
    }
  }

  // --- gaps ----------------------------------------------------------------------------

  predicate InGaps(gaps: seq<Gap>, line: int) {
    gaps != [] && (InGaps(gaps[..|gaps| - 1], line) || gaps[|gaps| - 1].first <= line <= gaps[|gaps| - 1].last)
  }

  lemma InGapsMore(gaps: seq<Gap>, g: Gap, line: int)
    ensures InGaps(gaps + [g], line) <==> InGaps(gaps, line) || g.first <= line <= g.last
  {
    assert (gaps + [g])[..|gaps|] == gaps;
  }

  predicate Ascending(gaps: seq<Gap>) {
    forall j, k | 0 <= j < k < |gaps| :: gaps[j].last + 1 < gaps[k].first
  }

  /** A gap ends where a line is asked for, on both sides. */
  predicate Maximal(all: seq<Section>, g: Gap) {
    g.first <= g.last && Asked(all, g.first - 1) && Asked(all, g.last + 1)
  }

  predicate AllMaximal(all: seq<Section>, gaps: seq<Gap>) {
    forall k | 0 <= k < |gaps| :: Maximal(all, gaps[k])
  }

  /** The gaps hold the lines from `lo` to `hi` that no section asks for, and no others. */
  ghost predicate Missing(all: seq<Section>, gaps: seq<Gap>, lo: int, hi: int) {
    forall line: int :: InGaps(gaps, line) <==> lo <= line <= hi && !Asked(all, line)
  }

  /** The gaps are the maximal runs of such lines: all of them, in order. */
  ghost predicate Exact(all: seq<Section>, gaps: seq<Gap>, lo: int, hi: int) {
    Ascending(gaps) && AllMaximal(all, gaps) && Missing(all, gaps, lo, hi)
  }

  lemma {:induction false} InSomeGap(gaps: seq<Gap>, line: int)
    ensures InGaps(gaps, line) <==> exists k :: 0 <= k < |gaps| && gaps[k].first <= line <= gaps[k].last
    decreases |gaps|
  {
    if gaps != [] {
      var front := gaps[..|gaps| - 1];
      InSomeGap(front, line);
      if k :| 0 <= k < |front| && front[k].first <= line <= front[k].last {
        assert gaps[k] == front[k];
      }
    }
  }

  /** Each gap of one exact list is a gap of the other ... */
  lemma GapHasPlace(all: seq<Section>, a: seq<Gap>, b: seq<Gap>, lo: int, hi: int, k: nat) returns (j: nat)
    requires Exact(all, a, lo, hi) && Exact(all, b, lo, hi) && k < |a|
    ensures j < |b| && a[k].first == b[j].first && a[k].last == b[j].last
  {
    var g := a[k];
    forall line: int | g.first <= line <= g.last ensures !Asked(all, line) {
      InSomeGap(a, line);
    }
    InSomeGap(a, g.first);
    InSomeGap(b, g.first);
    j :| 0 <= j < |b| && b[j].first <= g.first <= b[j].last;
    forall line: int | b[j].first <= line <= b[j].last ensures !Asked(all, line) {
      InSomeGap(b, line);
    }
    assert Maximal(all, g) && Maximal(all, b[j]);
  }

  /** ... so only one list of ranges is exact. */
  lemma {:induction false} ExactIsUnique(all: seq<Section>, a: seq<Gap>, b: seq<Gap>, lo: int, hi: int, k: nat)
    requires Exact(all, a, lo, hi) && Exact(all, b, lo, hi) && k < |a|
    ensures k < |b| && a[k].first == b[k].first && a[k].last == b[k].last
    decreases k
  {
    var j := GapHasPlace(all, a, b, lo, hi, k);
    if j < k {
      ExactIsUnique(all, a, b, lo, hi, j);
    } else if k < j {
      var i := GapHasPlace(all, b, a, lo, hi, k);
      if i < k {
        ExactIsUnique(all, a, b, lo, hi, i);
      }
    }
  }

  /** Each gap names a section that ends just before it and one that starts just after it. */
  predicate Named(all: seq<Section>, gaps: seq<Gap>) {
    forall k | 0 <= k < |gaps| ::
      EndsAt(all, gaps[k].first - 1, gaps[k].before) && StartsAt(all, gaps[k].last + 1, gaps[k].after)
  }

  predicate EndsAt(all: seq<Section>, line: int, sid: string) {
    exists k :: 0 <= k < |all| && all[k].end == line && all[k].sid == sid
  }

  predicate StartsAt(all: seq<Section>, line: int, sid: string) {
    exists k :: 0 <= k < |all| && all[k].start == line && all[k].sid == sid
  }

  // --- the walk ------------------------------------------------------------------------

  /** The state of the walk over the sections in order: the gaps so far, the last line reached, and
      the section that reached it. */
  datatype Walked = Walked(gaps: seq<Gap>, reached: nat, at: nat)

  function Walk(all: seq<Section>, k: nat): (w: Walked)
    requires 0 < k <= |all|
    ensures w.at < k && all[w.at].end == w.reached
    ensures forall i | 0 <= i < k :: all[i].end <= w.reached
  {
    if k == 1 then Walked([], all[0].end, 0) else Further(all, Walk(all, k - 1), k - 1)
  }

  /** ... one section further. */
  function Further(all: seq<Section>, w: Walked, k: nat): Walked
    requires k < |all| && w.at < |all|
  {
    var s := all[k];
    Walked(
      if s.start > w.reached + 1 then w.gaps + [Gap(w.reached + 1, s.start - 1, all[w.at].sid, s.sid)] else w.gaps,
      if s.end > w.reached then s.end else w.reached,
      if s.end > w.reached then k else w.at)
  }

  /** Between what is reached and the start of the next section, in order, nothing is asked for. */
  lemma NothingBetween(all: seq<Section>, k: nat, reached: int, line: int)
    requires Sorted(all) && k < |all| && reached < line < all[k].start
    requires forall i | 0 <= i < k :: all[i].end <= reached
    ensures !Asked(all, line)
  {
    AskedBy(all, line);
    forall i | 0 <= i < |all| ensures !Covers(all[i], line) {
      assert i > k ==> Before(all[k], all[i]);
    }
  }

  lemma SectionAsked(all: seq<Section>, k: nat, line: int)
    requires k < |all| && Covers(all[k], line)
    ensures Asked(all, line)
  {
    AskedBy(all, line);
  }

  lemma {:induction false} WalkIsMissing(all: seq<Section>, k: nat, line: int)
    requires Sorted(all) && WellFormed(all) && 0 < k <= |all|
    ensures all[0].start <= Walk(all, k).reached
    ensures InGaps(Walk(all, k).gaps, line) <==> all[0].start <= line <= Walk(all, k).reached && !Asked(all, line)
  {
    if k == 1 {
      if Covers(all[0], line) {
        SectionAsked(all, 0, line);
      }
    } else {
      WalkIsMissing(all, k - 1, line);
      FurtherLine(all, k - 1, line);
    }
  }

  lemma FurtherLine(all: seq<Section>, k: nat, line: int)
    requires Sorted(all) && WellFormed(all) && 0 < k < |all|
    ensures
      var w, v := Walk(all, k), Walk(all, k + 1);
      InGaps(v.gaps, line) <==> InGaps(w.gaps, line) || (w.reached < line <= v.reached && !Asked(all, line))
  {
    var w, s := Walk(all, k), all[k];
    InGapsMore(w.gaps, Gap(w.reached + 1, s.start - 1, all[w.at].sid, s.sid), line);
    if w.reached < line < s.start {
      NothingBetween(all, k, w.reached, line);
    }
    if Covers(s, line) {
      SectionAsked(all, k, line);
    }
  }

  /** The gaps of the walk ascend, below what is reached ... */
  lemma {:induction false} WalkAscends(all: seq<Section>, k: nat)
    requires WellFormed(all) && 0 < k <= |all|
    ensures Ascending(Walk(all, k).gaps)
    ensures forall j | 0 <= j < |Walk(all, k).gaps| :: Walk(all, k).gaps[j].last < Walk(all, k).reached
  {
    if k > 1 {
      WalkAscends(all, k - 1);
    }
  }

  /** ... are maximal ... */
  lemma {:induction false} WalkMaximal(all: seq<Section>, k: nat)
    requires WellFormed(all) && 0 < k <= |all|
    ensures AllMaximal(all, Walk(all, k).gaps)
  {
    if k > 1 {
      WalkMaximal(all, k - 1);
      var w, s := Walk(all, k - 1), all[k - 1];
      SectionAsked(all, w.at, w.reached);
      SectionAsked(all, k - 1, s.start);
    }
  }

  /** ... and named. */
  lemma {:induction false} WalkNamed(all: seq<Section>, k: nat)
    requires 0 < k <= |all|
    ensures Named(all, Walk(all, k).gaps)
  {
    if k > 1 {
      WalkNamed(all, k - 1);
      var w, s := Walk(all, k - 1), all[k - 1];
      assert EndsAt(all, w.reached, all[w.at].sid) && StartsAt(all, s.start, s.sid);
    }
  }

  lemma WalkDone(all: seq<Section>)
    requires Sorted(all) && WellFormed(all) && all != []
    ensures Exact(all, Walk(all, |all|).gaps, all[0].start, Walk(all, |all|).reached)
    ensures Named(all, Walk(all, |all|).gaps)
  {
    forall line: int
      ensures InGaps(Walk(all, |all|).gaps, line)
              <==> all[0].start <= line <= Walk(all, |all|).reached && !Asked(all, line)
    {
      WalkIsMissing(all, |all|, line);
    }
    WalkAscends(all, |all|);
    WalkMaximal(all, |all|);
    WalkNamed(all, |all|);
  }

  /** The lines from the first requested line to the last. */
  ghost predicate Range(all: seq<Section>, lo: nat, hi: nat) {
    && (forall k | 0 <= k < |all| :: lo <= all[k].start && all[k].end <= hi)
    && (exists k :: 0 <= k < |all| && all[k].start == lo)
    && (exists k :: 0 <= k < |all| && all[k].end == hi)
  }

  /** A line lies in a gap if and only if it is between the first and the last requested line, and no section
      that was asked for holds it. */
  lemma GapLineIff(all: seq<Section>, gaps: seq<Gap>, lo: nat, hi: nat, line: int)
    requires Range(all, lo, hi) && Exact(all, gaps, lo, hi)
    ensures (exists k :: 0 <= k < |gaps| && gaps[k].first <= line <= gaps[k].last) <==>
            && (exists k :: 0 <= k < |all| && all[k].start <= line)
            && (exists k :: 0 <= k < |all| && line <= all[k].end)
            && forall k | 0 <= k < |all| :: !(all[k].start <= line <= all[k].end)
  {
    InSomeGap(gaps, line);
    AskedBy(all, line);
    var i :| 0 <= i < |all| && all[i].start == lo;
    var j :| 0 <= j < |all| && all[j].end == hi;
    forall k | 0 <= k < |all| ensures Covers(all[k], line) <==> all[k].start <= line <= all[k].end {
    }
  }

  method GapsInOrder(ordered: seq<Section>) returns (gaps: seq<Gap>, ghost lo: nat, ghost hi: nat)
    requires Sorted(ordered) && WellFormed(ordered) && ordered != []
    ensures lo == ordered[0].start && hi == Walk(ordered, |ordered|).reached
    ensures Exact(ordered, gaps, lo, hi) && Named(ordered, gaps)
  {
    var reached;
    gaps, reached := WalkDown(ordered);
    lo, hi := ordered[0].start, reached;
    WalkDone(ordered);
  }

  /** ... section by section. */
  method WalkDown(ordered: seq<Section>) returns (gaps: seq<Gap>, reached: nat)
    requires Sorted(ordered) && WellFormed(ordered) && ordered != []
    ensures gaps == Walk(ordered, |ordered|).gaps && reached == Walk(ordered, |ordered|).reached
  {
    var holder;
    reached, holder, gaps := ordered[0].end, ordered[0].sid, [];
    ghost var at: nat := 0;
    for k := 1 to |ordered|
      invariant at < k && holder == ordered[at].sid && Walk(ordered, k) == Walked(gaps, reached, at)
    {
      gaps, reached, holder, at := GoFurther(ordered, k, gaps, reached, holder, at);
    }
  }

  method GoFurther(ordered: seq<Section>, k: nat, gaps: seq<Gap>, reached: nat, holder: string, ghost at: nat)
    returns (gaps': seq<Gap>, reached': nat, holder': string, ghost at': nat)
    requires at < k < |ordered| && holder == ordered[at].sid
    ensures at' <= k && holder' == ordered[at'].sid
    ensures Walked(gaps', reached', at') == Further(ordered, Walked(gaps, reached, at), k)
  {
    var sec := ordered[k];
    gaps', reached', holder', at' := gaps, reached, holder, at;
    if sec.start > reached + 1 {
      gaps' := gaps + [Gap(reached + 1, sec.start - 1, holder, sec.sid)];
    }
    if sec.end > reached {
      reached', holder', at' := sec.end, sec.sid, k;
    }
  }

  lemma WalkRange(all: seq<Section>, same: seq<Section>)
    requires Sorted(all) && all != [] && forall s :: s in all <==> s in same
    ensures Range(same, all[0].start, Walk(all, |all|).reached)
  {
    var hi := Walk(all, |all|).reached;
    forall k | 0 <= k < |same| ensures all[0].start <= same[k].start && same[k].end <= hi {
      assert same[k] in all;
      var i :| 0 <= i < |all| && all[i] == same[k];
      assert i > 0 ==> Before(all[0], all[i]);
    }
    assert all[0] in same && all[Walk(all, |all|).at] in same;
  }

  lemma SameExact(a: seq<Section>, b: seq<Section>, gaps: seq<Gap>, lo: int, hi: int)
    requires (forall s :: s in b <==> s in a) && Exact(a, gaps, lo, hi)
    ensures Exact(b, gaps, lo, hi)
  {
    forall line: int ensures Asked(a, line) <==> Asked(b, line) {
      SameAsked(a, b, line);
    }
  }

  lemma SameNames(a: seq<Section>, b: seq<Section>, gaps: seq<Gap>)
    requires (forall s :: s in b <==> s in a) && Named(a, gaps)
    ensures Named(b, gaps)
  {
    forall k | 0 <= k < |gaps|
      ensures EndsAt(b, gaps[k].first - 1, gaps[k].before) && StartsAt(b, gaps[k].last + 1, gaps[k].after)
    {
      var i :| 0 <= i < |a| && a[i].end == gaps[k].first - 1 && a[i].sid == gaps[k].before;
      var j :| 0 <= j < |a| && a[j].start == gaps[k].last + 1 && a[j].sid == gaps[k].after;
      assert a[i] in b && a[j] in b;
    }
  }

  function Pick(found: map<string, Section>, wanted: seq<string>): (all: seq<Section>)
    requires forall k | 0 <= k < |wanted| :: wanted[k] in found
    ensures |all| == |wanted|
  {
    seq(|wanted|, k requires 0 <= k < |wanted| => found[wanted[k]])
  }

  /** The gaps inside the requested range; with nothing requested there are none. */
  method CoverageGaps(found: map<string, Section>, wanted: seq<string>)
    returns (gaps: seq<Gap>, ghost lo: nat, ghost hi: nat)
    requires forall k | 0 <= k < |wanted| :: wanted[k] in found
    requires WellFormed(Pick(found, wanted))
    ensures wanted == [] ==> gaps == []
    ensures wanted != [] ==> Range(Pick(found, wanted), lo, hi)
    ensures wanted != [] ==> Exact(Pick(found, wanted), gaps, lo, hi) && Named(Pick(found, wanted), gaps)
  {
    ghost var all := Pick(found, wanted);
    var ordered := Sort(Pick(found, wanted));
    SortSorts(all);
    if ordered == [] { return [], 0, 0; }
    SameMembers(all, ordered);
    gaps, lo, hi := GapsInOrder(ordered);
    SameExact(ordered, all, gaps, lo, hi);
    WalkRange(ordered, all);
    SameNames(ordered, all, gaps);
  }

  lemma SameMembers(a: seq<Section>, b: seq<Section>)
    requires WellFormed(a) && forall s :: s in b <==> s in a
    ensures WellFormed(b)
  {
    forall k | 0 <= k < |b| ensures b[k].start <= b[k].end {
      assert b[k] in a;
    }
  }

  // --- the count -----------------------------------------------------------------------

  function Lines(lo: int, hi: int): (lines: set<int>)
    ensures forall line: int :: line in lines <==> lo <= line <= hi
    decreases hi - lo + 1
  {
    if lo > hi then {} else Lines(lo, hi - 1) + {hi}
  }

  lemma {:induction false} LinesSize(lo: int, hi: int)
    requires lo <= hi + 1
    ensures |Lines(lo, hi)| == hi + 1 - lo
    decreases hi - lo + 1
  {
    if lo <= hi {
      LinesSize(lo, hi - 1);
    }
  }

  /** The union of the requested sections. */
  function Union(all: seq<Section>): set<int> {
    if all == [] then {} else Lines(all[0].start, all[0].end) + Union(all[1..])
  }

  lemma {:induction false} InUnion(all: seq<Section>, line: int)
    ensures line in Union(all) <==> Asked(all, line)
  {
    if all != [] {
      InUnion(all[1..], line);
    }
  }

  function GapLines(gaps: seq<Gap>): set<int> {
    if gaps == [] then {} else GapLines(gaps[..|gaps| - 1]) + Lines(gaps[|gaps| - 1].first, gaps[|gaps| - 1].last)
  }

  lemma {:induction false} InGapLines(gaps: seq<Gap>, line: int)
    ensures line in GapLines(gaps) <==> InGaps(gaps, line)
    decreases |gaps|
  {
    if gaps != [] {
      InGapLines(gaps[..|gaps| - 1], line);
    }
  }

  function LinesOf(gaps: seq<Gap>): int {
    if gaps == [] then 0
    else LinesOf(gaps[..|gaps| - 1]) + (gaps[|gaps| - 1].last - gaps[|gaps| - 1].first + 1)
  }

  lemma {:induction false} GapLinesSize(gaps: seq<Gap>)
    requires Ascending(gaps) && forall k | 0 <= k < |gaps| :: gaps[k].first <= gaps[k].last
    ensures |GapLines(gaps)| == LinesOf(gaps)
    decreases |gaps|
  {
    if gaps != [] {
      var front, g := gaps[..|gaps| - 1], gaps[|gaps| - 1];
      GapLinesSize(front);
      LinesSize(g.first, g.last);
      forall line: int | line in GapLines(front) ensures line < g.first {
        InGapLines(front, line);
        InSomeGap(front, line);
      }
      assert GapLines(front) !! Lines(g.first, g.last);
    }
  }

  /** The span less the gaps is the size of the union. */
  lemma SpanLessGaps(all: seq<Section>, gaps: seq<Gap>, lo: nat, hi: nat)
    requires Range(all, lo, hi) && Exact(all, gaps, lo, hi) && lo <= hi
    ensures |Union(all)| == hi + 1 - lo - LinesOf(gaps)
  {
    assert forall k | 0 <= k < |gaps| :: Maximal(all, gaps[k]);
    GapLinesSize(gaps);
    LinesSize(lo, hi);
    forall line: int ensures line in Union(all) <==> line in Lines(lo, hi) && line !in GapLines(gaps) {
      InUnion(all, line);
      InGapLines(gaps, line);
      AskedBy(all, line);
    }
    forall line: int | line in GapLines(gaps) ensures line in Lines(lo, hi) {
      InGapLines(gaps, line);
    }
    SizeLess(Lines(lo, hi), Union(all), GapLines(gaps));
  }

  lemma SizeLess<T(!new)>(whole: set<T>, part: set<T>, rest: set<T>)
    requires forall x :: x in part <==> x in whole && x !in rest
    requires forall x :: x in rest ==> x in whole
    ensures |part| == |whole| - |rest|
  {
    assert part == whole - rest;
    assert rest <= whole;
  }

  function MinStart(all: seq<Section>): (lo: nat)
    requires all != []
    ensures (forall k | 0 <= k < |all| :: lo <= all[k].start) && exists k :: 0 <= k < |all| && all[k].start == lo
  {
    if |all| == 1 then all[0].start
    else
      var lo := MinStart(all[1..]);
      if all[0].start < lo then all[0].start else lo
  }

  function MaxEnd(all: seq<Section>): (hi: nat)
    requires all != []
    ensures (forall k | 0 <= k < |all| :: all[k].end <= hi) && exists k :: 0 <= k < |all| && all[k].end == hi
  {
    if |all| == 1 then all[0].end
    else
      var hi := MaxEnd(all[1..]);
      if all[0].end > hi then all[0].end else hi
  }

  lemma RangeIs(all: seq<Section>, first: nat, last: nat, lo: nat, hi: nat)
    requires WellFormed(all) && all != [] && Range(all, first, last)
    requires lo == MinStart(all) && hi == MaxEnd(all)
    ensures lo == first && hi == last && lo <= hi
  {
    assert lo <= all[0].start <= all[0].end <= hi;
  }

  /** The lines of the span less those of the gaps. */
  method Count(gaps: seq<Gap>, lo: nat, hi: nat) returns (covered: int)
    ensures covered == hi - lo + 1 - LinesOf(gaps)
  {
    covered := hi - lo + 1;
    for k := 0 to |gaps|
      invariant covered == hi - lo + 1 - LinesOf(gaps[..k])
    {
      assert gaps[..k + 1][..k] == gaps[..k];
      covered := covered - (gaps[k].last - gaps[k].first + 1);
    }
    assert gaps[..|gaps|] == gaps;
  }

  /** The numbers of the summary: `None` when nothing is requested, else the lines covered, the span,
      and the gaps. */
  method CoverageSummary(found: map<string, Section>, wanted: seq<string>) returns (r: Option<(int, int, seq<Gap>)>)
    requires forall k | 0 <= k < |wanted| :: wanted[k] in found
    requires WellFormed(Pick(found, wanted))
    ensures r.None? <==> wanted == []
    ensures r.Some? ==> r.value.0 == |Union(Pick(found, wanted))|
    ensures r.Some? ==> exists lo: nat, hi: nat ::
              Range(Pick(found, wanted), lo, hi) && r.value.1 == hi + 1 - lo
                && Exact(Pick(found, wanted), r.value.2, lo, hi)
  {
    if wanted == [] { return None; }
    var all := Pick(found, wanted);
    var lo, hi := MinStart(all), MaxEnd(all);
    var gaps, first, last := CoverageGaps(found, wanted);
    RangeIs(all, first, last, lo, hi);
    SpanLessGaps(all, gaps, lo, hi);
    var covered := Count(gaps, lo, hi);
    r := Some((covered, hi - lo + 1, gaps));
  }
}
