/** Sections of a specification, derived from its headings, and the lines a request leaves out. */
module Keyspec {
  import opened Options

  // --- lines ---------------------------------------------------------------------------

  predicate IsSpace(c: char) {
    c == ' ' || '\t' <= c <= '\r' || '\U{1c}' <= c <= '\U{1f}'
  }

  /** How many characters at the front of `s` are spaces. */
  function Spaces(s: string): (n: nat)
    ensures n <= |s| && (n < |s| ==> !IsSpace(s[n]))
    ensures forall k | 0 <= k < n :: IsSpace(s[k])
  {
    if s != [] && IsSpace(s[0]) then 1 + Spaces(s[1..]) else 0
  }

  function Hashes(s: string): (n: nat)
    ensures n <= |s| && (n < |s| ==> s[n] != '#')
    ensures forall k | 0 <= k < n :: s[k] == '#'
  {
    if s != [] && s[0] == '#' then 1 + Hashes(s[1..]) else 0
  }

  function StripEnd(s: string): string {
    if s != [] && IsSpace(s[|s| - 1]) then StripEnd(s[..|s| - 1]) else s
  }

  /** Up to three spaces, then three backticks or three tildes. */
  predicate IsFence(line: string) {
    var k := Spaces(line);
    k <= 3 && ("```" <= line[k..] || "~~~" <= line[k..])
  }

  /** One to six hashes, a space, and a title on the same line. */
  function HeadingOf(line: string): Option<(nat, string)> {
    var level := Hashes(line);
    var body := line[level..];
    var k := Spaces(body);
    if 1 <= level <= 6 && 1 <= k < |body| && '\n' !in body[k..|body| - 1]
    then Some((level, StripEnd(body[k..])))
    else None
  }

  predicate IsLetter(c: char) {
    'A' <= c <= 'Z' || 'a' <= c <= 'z'
  }

  function DigitsLen(s: string): (n: nat)
    ensures n <= |s|
  {
    if s != [] && '0' <= s[0] <= '9' then 1 + DigitsLen(s[1..]) else 0
  }

  function LettersLen(s: string): (n: nat)
    ensures n <= |s|
  {
    if s != [] && IsLetter(s[0]) then 1 + LettersLen(s[1..]) else 0
  }

  /** Digits, letters, a dot, and a space: the digits and letters, or "". */
  function IdOf(s: string): string {
    var d := DigitsLen(s);
    var n := d + LettersLen(s[d..]);
    if d > 0 && n + 1 < |s| && s[n] == '.' && IsSpace(s[n + 1]) then s[..n] else ""
  }

  /** The section id a title starts with, after an optional section sign, or "". */
  function SectionId(title: string): string {
    if title != [] && title[0] == '\U{a7}' then IdOf(title[1 + Spaces(title[1..])..]) else IdOf(title)
  }

  // --- what the lines say --------------------------------------------------------------

  lemma {:induction false} SpacesAre(s: string, k: nat)
    requires k <= |s| && (forall j | 0 <= j < k :: IsSpace(s[j])) && (k < |s| ==> !IsSpace(s[k]))
    ensures Spaces(s) == k
    decreases k
  {
    if k > 0 {
      SpacesAre(s[1..], k - 1);
    }
  }

  lemma SpaceIs(c: char)
    ensures IsSpace(c) <==> c as int == 32 || 9 <= c as int <= 13 || 28 <= c as int <= 31
  {
  }

  /** An id is digits and then letters, with a dot and a space after it. */
  lemma IdIs(s: string)
    ensures IdOf(s) != "" ==>
              var id := IdOf(s);
              && '0' <= id[0] <= '9' && |s| > |id| + 1 && s[..|id|] == id && s[|id|] == '.' && IsSpace(s[|id| + 1])
              && forall j | 0 <= j < |id| :: '0' <= id[j] <= '9' || 'A' <= id[j] <= 'Z' || 'a' <= id[j] <= 'z'
  {
    DigitsOnly(s);
    var d := DigitsLen(s);
    var n := d + LettersLen(s[d..]);
    forall j | 0 <= j < n ensures '0' <= s[j] <= '9' || IsLetter(s[j]) {
      if j >= d {
        LettersOnly(s[d..]);
        assert s[j] == s[d..][j - d];
      }
    }
  }

  lemma {:induction false} DigitsOnly(s: string)
    ensures forall j | 0 <= j < DigitsLen(s) :: '0' <= s[j] <= '9'
  {
    if s != "" && '0' <= s[0] <= '9' {
      DigitsOnly(s[1..]);
      assert forall j | 0 < j < DigitsLen(s) :: s[j] == s[1..][j - 1];
    }
  }

  lemma {:induction false} LettersOnly(s: string)
    ensures forall j | 0 <= j < LettersLen(s) :: IsLetter(s[j])
  {
    if s != "" && IsLetter(s[0]) {
      LettersOnly(s[1..]);
      assert forall j | 0 < j < LettersLen(s) :: s[j] == s[1..][j - 1];
    }
  }

  /** No hash, more than six, or no space after them: no heading. */
  lemma NoHeading(line: string, level: nat)
    requires level <= |line| && forall j | 0 <= j < level :: line[j] == '#'
    requires level < |line| ==> line[level] != '#'
    requires level == 0 || level > 6 || level == |line| || !IsSpace(line[level])
    ensures HeadingOf(line) == None
  {
    HashesAre(line, level);
  }

  /** A fence is a line of at most three spaces, and then three backticks or three tildes. */
  lemma FenceIs(line: string, k: nat)
    requires k <= |line| && (forall j | 0 <= j < k :: line[j] == ' ') && (k < |line| ==> !IsSpace(line[k]))
    ensures IsFence(line) <==>
            k <= 3 && |line| >= k + 3 && (line[k..k + 3] == "```" || line[k..k + 3] == "~~~")
  {
    SpacesAre(line, k);
    assert |line| >= k + 3 ==> line[k..k + 3] == line[k..][..3];
  }

  lemma {:induction false} HashesAre(s: string, k: nat)
    requires k <= |s| && (forall j | 0 <= j < k :: s[j] == '#') && (k < |s| ==> s[k] != '#')
    ensures Hashes(s) == k
    decreases k
  {
    if k > 0 {
      HashesAre(s[1..], k - 1);
    }
  }

  lemma {:induction false} DigitsAre(s: string, d: nat)
    requires d <= |s| && (forall j | 0 <= j < d :: '0' <= s[j] <= '9') && (d < |s| ==> !('0' <= s[d] <= '9'))
    ensures DigitsLen(s) == d
    decreases d
  {
    if d > 0 {
      DigitsAre(s[1..], d - 1);
    }
  }

  lemma {:induction false} LettersAre(s: string, d: nat)
    requires d <= |s| && (forall j | 0 <= j < d :: IsLetter(s[j])) && (d < |s| ==> !IsLetter(s[d]))
    ensures LettersLen(s) == d
    decreases d
  {
    if d > 0 {
      LettersAre(s[1..], d - 1);
    }
  }

  /** A numbered heading, as it is written, is read back: its level, its title, and its id, with a section sign
      before the id or without one. */
  lemma HeadingIsRead(level: nat, gap: string, sign: bool, digits: string, letters: string, rest: string)
    requires 1 <= level <= 6 && gap != [] && forall j | 0 <= j < |gap| :: gap[j] == ' '
    requires digits != [] && forall j | 0 <= j < |digits| :: '0' <= digits[j] <= '9'
    requires forall j | 0 <= j < |letters| :: 'A' <= letters[j] <= 'Z' || 'a' <= letters[j] <= 'z'
    requires rest != [] && !IsSpace(rest[|rest| - 1]) && '\n' !in rest
    ensures
      var title := (if sign then ['\U{a7}'] else []) + digits + letters + ". " + rest;
      && HeadingOf(seq(level, _ => '#') + gap + title) == Some((level, title))
      && SectionId(title) == digits + letters
  {
    var title := (if sign then ['\U{a7}'] else []) + digits + letters + ". " + rest;
    assert title[0] == if sign then '\U{a7}' else digits[0];
    assert title[|title| - 1] == rest[|rest| - 1];
    SignedId(sign, digits, letters, rest);
    TitleIsRead(level, gap, title);
  }

  lemma SignedId(sign: bool, digits: string, letters: string, rest: string)
    requires digits != [] && forall j | 0 <= j < |digits| :: '0' <= digits[j] <= '9'
    requires forall j | 0 <= j < |letters| :: IsLetter(letters[j])
    ensures SectionId((if sign then ['\U{a7}'] else []) + digits + letters + ". " + rest) == digits + letters
  {
    var id := digits + letters + ". " + rest;
    var title := (if sign then ['\U{a7}'] else []) + digits + letters + ". " + rest;
    IdIsRead(digits, letters, rest);
    assert title == (if sign then ['\U{a7}'] + id else id);
    if sign {
      assert title[1..] == id;
      SpacesAre(id, 0);
      assert id[0..] == id;
    }
  }

  lemma IdIsRead(digits: string, letters: string, rest: string)
    requires digits != [] && forall j | 0 <= j < |digits| :: '0' <= digits[j] <= '9'
    requires forall j | 0 <= j < |letters| :: IsLetter(letters[j])
    ensures IdOf(digits + letters + ". " + rest) == digits + letters
  {
    var s := digits + letters + ". " + rest;
    var d, n := |digits|, |digits| + |letters|;
    assert forall j | 0 <= j < d :: s[j] == digits[j];
    assert forall j | 0 <= j < |letters| :: s[d..][j] == letters[j];
    assert s[n] == '.' && s[n + 1] == ' ';
    DigitsAre(s, d);
    LettersAre(s[d..], |letters|);
    assert s[..n] == digits + letters;
  }

  lemma TitleIsRead(level: nat, gap: string, title: string)
    requires 1 <= level <= 6 && gap != [] && forall j | 0 <= j < |gap| :: gap[j] == ' '
    requires title != [] && !IsSpace(title[0]) && !IsSpace(title[|title| - 1]) && '\n' !in title
    ensures HeadingOf(seq(level, _ => '#') + gap + title) == Some((level, title))
  {
    var line, body := seq(level, _ => '#') + gap + title, gap + title;
    HashesBefore(level, gap, title);
    SpacesBefore(gap, title);
    assert body[|gap|..] == title && body[|gap|..|body| - 1] == title[..|title| - 1];
    assert StripEnd(title) == title;
  }

  lemma HashesBefore(level: nat, gap: string, title: string)
    requires gap != [] && gap[0] == ' '
    ensures var line := seq(level, _ => '#') + gap + title; Hashes(line) == level && line[level..] == gap + title
  {
    var line := seq(level, _ => '#') + gap + title;
    assert line[level] == gap[0] && forall j | 0 <= j < level :: line[j] == '#';
    HashesAre(line, level);
  }

  lemma SpacesBefore(gap: string, title: string)
    requires (forall j | 0 <= j < |gap| :: gap[j] == ' ') && title != [] && !IsSpace(title[0])
    ensures Spaces(gap + title) == |gap|
  {
    assert forall j | 0 <= j < |gap| :: (gap + title)[j] == gap[j];
    SpacesAre(gap + title, |gap|);
  }

  // --- headings ------------------------------------------------------------------------

  datatype Head = Head(line: nat, level: nat, sid: string, title: string)

  /** Whether line `k` (from 0) is inside a fence. */
  predicate InFence(lines: seq<string>, k: nat)
    requires k <= |lines|
  {
    k > 0 && InFence(lines, k - 1) != IsFence(lines[k - 1])
  }

  /** The headings outside every fence, among the first `k` lines. */
  function Heads(lines: seq<string>, k: nat): (heads: seq<Head>)
    requires k <= |lines|
    ensures InOrder(heads, k)
  {
    if k == 0 then []
    else
      var before := Heads(lines, k - 1);
      var line := lines[k - 1];
      if IsFence(line) || InFence(lines, k - 1) || HeadingOf(line).None? then before
      else
        var (level, title) := HeadingOf(line).value;
        before + [Head(k, level, SectionId(title), title)]
  }

  /** Before the first fence no line is inside one; from a fence to the next it is the other way about than
      before it. */
  lemma {:induction false} FencesAlternate(lines: seq<string>, j: nat, k: nat)
    requires j <= k <= |lines| && forall m | j < m < k :: !IsFence(lines[m])
    ensures !InFence(lines, 0)
    ensures j < k ==> (InFence(lines, k) <==> if IsFence(lines[j]) then !InFence(lines, j) else InFence(lines, j))
    decreases k
  {
    if j + 1 < k {
      FencesAlternate(lines, j, k - 1);
    }
  }

  /** One line more adds its heading, if it is one, no fence, and not inside a fence. */
  lemma HeadsGoOn(lines: seq<string>, k: nat)
    requires k < |lines|
    ensures
      var heading := HeadingOf(lines[k]);
      Heads(lines, k + 1) ==
      Heads(lines, k) +
      if !IsFence(lines[k]) && !InFence(lines, k) && heading.Some?
      then [Head(k + 1, heading.value.0, SectionId(heading.value.1), heading.value.1)] else []
  {
  }

  /** Line numbers count from 1 and go up. */
  predicate InOrder(heads: seq<Head>, n: nat) {
    LinesWithin(heads, n) && LinesGoUp(heads)
  }

  predicate LinesWithin(heads: seq<Head>, n: nat) {
    forall i | 0 <= i < |heads| :: 1 <= heads[i].line <= n
  }

  predicate LinesGoUp(heads: seq<Head>) {
    forall i, j | 0 <= i < j < |heads| :: heads[i].line < heads[j].line
  }

  // --- sections ------------------------------------------------------------------------

  datatype Section = Section(sid: string, title: string, start: nat, end: nat)

  datatype Parsed = Sections(found: map<string, Section>) | Twice(sid: string)

  /** The first heading after `i`, from `j` on, that is not deeper. */
  function Next(heads: seq<Head>, i: nat, j: nat): (k: nat)
    requires i < j <= |heads|
    ensures j <= k <= |heads|
    ensures forall m | j <= m < k :: heads[m].level > heads[i].level
    ensures k < |heads| ==> heads[k].level <= heads[i].level
    decreases |heads| - j
  {
    if j < |heads| && heads[j].level > heads[i].level then Next(heads, i, j + 1) else j
  }

  /** The last line of the section heading `i` opens: before the next heading as high or higher. */
  function End(heads: seq<Head>, n: nat, i: nat): nat
    requires i < |heads| && InOrder(heads, n)
  {
    var k := Next(heads, i, i + 1);
    if k < |heads| then heads[k].line - 1 else n
  }

  /** The section has a deeper heading: its first child. */
  predicate HasChild(heads: seq<Head>, i: nat)
    requires i < |heads|
  {
    i + 1 < |heads| && heads[i + 1].level > heads[i].level
  }

  function Whole(heads: seq<Head>, n: nat, i: nat): Section
    requires i < |heads| && InOrder(heads, n)
  {
    Section(heads[i].sid, heads[i].title, heads[i].line, End(heads, n, i))
  }

  /** The title shown for the preamble of a section whose first child has the id `sid`. */
  function PreambleTitle(title: string, sid: string): string {
    title + "  [preamble \U{2014} before \U{a7}" + sid + "]"
  }

  function Preamble(heads: seq<Head>, i: nat): Section
    requires i + 1 < |heads| && heads[i + 1].line > 0
  {
    Section(heads[i].sid + "-pre", PreambleTitle(heads[i].title, heads[i + 1].sid), heads[i].line,
            heads[i + 1].line - 1)
  }

  /** What heading `i` declares: its section, and its preamble if its first child is numbered. */
  function Declared(heads: seq<Head>, n: nat, i: nat): seq<Section>
    requires i < |heads| && InOrder(heads, n)
  {
    if heads[i].sid == "" then []
    else [Whole(heads, n, i)] + (if HasChild(heads, i) && heads[i + 1].sid != "" then [Preamble(heads, i)] else [])
  }

  function EachDeclared(heads: seq<Head>, n: nat): seq<seq<Section>>
    requires InOrder(heads, n)
  {
    seq(|heads|, i requires 0 <= i < |heads| => Declared(heads, n, i))
  }

  /** The first `k` parts, one after the other. */
  function Joined<T>(parts: seq<seq<T>>, k: nat): seq<T>
    requires k <= |parts|
  {
    if k == 0 then [] else Joined(parts, k - 1) + parts[k - 1]
  }

  /** What the first `k` headings declare. */
  function AllDeclared(heads: seq<Head>, n: nat, k: nat): seq<Section>
    requires k <= |heads| && InOrder(heads, n)
  {
    Joined(EachDeclared(heads, n), k)
  }

  /** `found` holds each declared section under its id, and no id is declared twice. */
  ghost predicate Holds(found: map<string, Section>, all: seq<Section>) {
    && (forall i | 0 <= i < |all| :: all[i].sid in found && found[all[i].sid] == all[i])
    && (forall sid | sid in found :: found[sid] in all && found[sid].sid == sid)
    && (forall i, j | 0 <= i < j < |all| :: all[i].sid != all[j].sid)
  }

  method Declare(found: map<string, Section>, sec: Section, ghost all: seq<Section>) returns (r: Parsed)
    requires Holds(found, all)
    ensures r.Sections? ==> Holds(r.found, all + [sec])
    ensures r.Twice? ==> r.sid == sec.sid && exists i :: 0 <= i < |all| && all[i].sid == sec.sid
  {
    if sec.sid in found {
      assert found[sec.sid] in all;
      return Twice(sec.sid);
    }
    r := Sections(found[sec.sid := sec]);
  }

  /** The same id is declared at two places. */
  ghost predicate Clash(all: seq<Section>, sid: string) {
    exists i, j :: 0 <= i < j < |all| && all[i].sid == sid == all[j].sid
  }

  method ReadHeads(lines: seq<string>) returns (heads: seq<Head>)
    ensures heads == Heads(lines, |lines|)
  {
    var inFence := false;
    heads := [];
    for idx := 0 to |lines|
      invariant heads == Heads(lines, idx) && inFence == InFence(lines, idx)
    {
      var raw := lines[idx];
      if IsFence(raw) {
        inFence := !inFence;
      } else if !inFence {
        var m := HeadingOf(raw);
        if m.Some? {
          heads := heads + [Head(idx + 1, m.value.0, SectionId(m.value.1), m.value.1)];
        }
      }
    }
  }

  /** The sections of a specification, or the first id that is declared twice. */
  method ParseSections(lines: seq<string>) returns (r: Parsed)
    ensures
      var all := AllDeclared(Heads(lines, |lines|), |lines|, |Heads(lines, |lines|)|);
      if r.Sections? then Holds(r.found, all) else Clash(all, r.sid)
  {
    var n := |lines|;
    var heads := ReadHeads(lines);
    r := Sections(map[]);
    for pos := 0 to |heads|
      invariant r.Sections? && Holds(r.found, AllDeclared(heads, n, pos))
    {
      r := DeclareHead(heads, n, pos, r.found);
      if r.Twice? { return; }
    }
  }

  method DeclareHead(heads: seq<Head>, n: nat, pos: nat, found: map<string, Section>) returns (r: Parsed)
    requires pos < |heads| && InOrder(heads, n) && Holds(found, AllDeclared(heads, n, pos))
    ensures r.Sections? ==> Holds(r.found, AllDeclared(heads, n, pos + 1))
    ensures r.Twice? ==> Clash(AllDeclared(heads, n, |heads|), r.sid)
  {
    ghost var all := AllDeclared(heads, n, pos);
    if heads[pos].sid == "" {
      assert all + Declared(heads, n, pos) == all;
      return Sections(found);
    }
    var end, child := ScanDown(heads, n, pos);
    var whole := Section(heads[pos].sid, heads[pos].title, heads[pos].line, end);
    r := Declare(found, whole, all);
    if r.Twice? {
      assert all + Declared(heads, n, pos)[..0] == all;
      ClashIn(heads, n, pos, 0, all);
      return;
    }
    if child.Some? && child.value.sid != "" {
      r := DeclarePreamble(heads, n, pos, r.found);
    } else {
      assert all + Declared(heads, n, pos) == all + [whole];
    }
  }

  /** ... and the lines before its first child, if that is numbered. */
  method DeclarePreamble(heads: seq<Head>, n: nat, pos: nat, found: map<string, Section>) returns (r: Parsed)
    requires pos < |heads| && InOrder(heads, n) && |Declared(heads, n, pos)| == 2
    requires Holds(found, AllDeclared(heads, n, pos) + Declared(heads, n, pos)[..1])
    ensures r.Sections? ==> Holds(r.found, AllDeclared(heads, n, pos + 1))
    ensures r.Twice? ==> Clash(AllDeclared(heads, n, |heads|), r.sid)
  {
    ghost var all, two := AllDeclared(heads, n, pos), Declared(heads, n, pos);
    assert all + two == (all + two[..1]) + [two[1]];
    r := Declare(found, Preamble(heads, pos), all + two[..1]);
    if r.Twice? {
      ClashIn(heads, n, pos, 1, all + two[..1]);
    }
  }

  /** Where the section ends, and the first deeper heading in it. */
  method ScanDown(heads: seq<Head>, n: nat, pos: nat) returns (end: nat, child: Option<Head>)
    requires pos < |heads| && InOrder(heads, n)
    ensures end == End(heads, n, pos)
    ensures child == if HasChild(heads, pos) then Some(heads[pos + 1]) else None
  {
    end, child := n, None;
    for j := pos + 1 to |heads|
      invariant end == n && Next(heads, pos, pos + 1) == Next(heads, pos, j)
      invariant child == if j > pos + 1 then Some(heads[pos + 1]) else None
      invariant j > pos + 1 ==> HasChild(heads, pos)
    {
      if heads[j].level <= heads[pos].level {
        end := heads[j].line - 1;
        break;
      }
      if child.None? {
        child := Some(heads[j]);
      }
    }
  }

  lemma ClashIn(heads: seq<Head>, n: nat, pos: nat, d: nat, before: seq<Section>)
    requires pos < |heads| && InOrder(heads, n) && d < |Declared(heads, n, pos)|
    requires before == AllDeclared(heads, n, pos) + Declared(heads, n, pos)[..d]
    requires exists i :: 0 <= i < |before| && before[i].sid == Declared(heads, n, pos)[d].sid
    ensures Clash(AllDeclared(heads, n, |heads|), Declared(heads, n, pos)[d].sid)
  {
    DeclaredPrefix(heads, n, pos + 1, |heads|);
    ClashInPrefix(AllDeclared(heads, n, pos), Declared(heads, n, pos), d, AllDeclared(heads, n, |heads|));
  }

  lemma ClashInPrefix(before: seq<Section>, here: seq<Section>, d: nat, all: seq<Section>)
    requires d < |here| && before + here <= all
    requires exists i :: 0 <= i < |before + here[..d]| && (before + here[..d])[i].sid == here[d].sid
    ensures Clash(all, here[d].sid)
  {
    var i: nat :| i < |before + here[..d]| && (before + here[..d])[i].sid == here[d].sid;
    assert all[i] == (before + here)[i] == (before + here[..d])[i];
    assert all[|before| + d] == (before + here)[|before| + d] == here[d];
  }

  lemma {:induction false} JoinedPrefix<T>(parts: seq<seq<T>>, j: nat, k: nat)
    requires j <= k <= |parts|
    ensures Joined(parts, j) <= Joined(parts, k)
  {
    if j < k {
      JoinedPrefix(parts, j, k - 1);
    }
  }

  /** What the first `j` headings declare is the start of what the first `k` do. */
  lemma DeclaredPrefix(heads: seq<Head>, n: nat, j: nat, k: nat)
    requires j <= k <= |heads| && InOrder(heads, n)
    ensures AllDeclared(heads, n, j) <= AllDeclared(heads, n, k)
  {
    JoinedPrefix(EachDeclared(heads, n), j, k);
  }

  // --- ids -----------------------------------------------------------------------------

  predicate NoHyphen(s: string) {
    forall k | 0 <= k < |s| :: s[k] != '-'
  }

  lemma IdOfNoHyphen(s: string)
    ensures NoHyphen(IdOf(s))
  {
    IdIs(s);
  }

  /** No heading's id holds a hyphen, so none is a preamble's. */
  lemma IdsNoHyphen(title: string)
    ensures NoHyphen(SectionId(title))
  {
    if title != [] {
      IdOfNoHyphen(title[1 + Spaces(title[1..])..]);
    }
    IdOfNoHyphen(title);
  }

  lemma {:induction false} HeadIdsNoHyphen(lines: seq<string>, k: nat)
    requires k <= |lines|
    ensures IdsPlain(Heads(lines, k))
  {
    if k > 0 {
      HeadIdsNoHyphen(lines, k - 1);
      HeadsGoOn(lines, k - 1);
      var heading := HeadingOf(lines[k - 1]);
      if heading.Some? {
        IdsNoHyphen(heading.value.1);
        OnePlain(Heads(lines, k - 1), Head(k, heading.value.0, SectionId(heading.value.1), heading.value.1));
      }
    }
  }

  predicate IdsPlain(heads: seq<Head>) {
    forall i | 0 <= i < |heads| :: NoHyphen(heads[i].sid)
  }

  lemma OnePlain(heads: seq<Head>, head: Head)
    requires IdsPlain(heads) && NoHyphen(head.sid)
    ensures IdsPlain(heads + [head])
  {
  }

  lemma HyphenIn(a: string, b: string)
    requires NoHyphen(b)
    ensures a + "-pre" != b
  {
    assert (a + "-pre")[|a|] == '-';
  }

  lemma SuffixCancels(a: string, b: string)
    requires a + "-pre" == b + "-pre"
    ensures a == b
  {
    assert |a| == |b|;
    assert a == (a + "-pre")[..|a|] == (b + "-pre")[..|b|] == b;
  }

  /** Numbered headings among the first `k` have ids of their own. */
  predicate OwnIds(heads: seq<Head>, k: nat)
    requires k <= |heads|
  {
    forall i, j | 0 <= i < j < k && heads[i].sid != "" :: heads[i].sid != heads[j].sid
  }

  /** What heading `j` declares has an id that nothing of heading `i` has. */
  lemma IdsApart(heads: seq<Head>, n: nat, i: nat, j: nat, a: Section, b: Section)
    requires InOrder(heads, n) && i < |heads| && j < |heads| && heads[i].sid != heads[j].sid
    requires NoHyphen(heads[i].sid) && NoHyphen(heads[j].sid)
    requires a in Declared(heads, n, i) && b in Declared(heads, n, j)
    ensures a.sid != b.sid
  {
    HyphenIn(heads[i].sid, heads[j].sid);
    HyphenIn(heads[j].sid, heads[i].sid);
    if a.sid == heads[i].sid + "-pre" && b.sid == heads[j].sid + "-pre" && a.sid == b.sid {
      SuffixCancels(heads[i].sid, heads[j].sid);
    }
  }

  lemma {:induction false} NoClash(heads: seq<Head>, n: nat, k: nat, sid: string)
    requires InOrder(heads, n) && k <= |heads| && OwnIds(heads, k)
    requires forall i | 0 <= i < k :: NoHyphen(heads[i].sid)
    ensures !Clash(AllDeclared(heads, n, k), sid)
  {
    if k > 0 {
      NoClash(heads, n, k - 1, sid);
      var before, here := AllDeclared(heads, n, k - 1), Declared(heads, n, k - 1);
      forall a, b | a in before && b in here ensures a.sid != b.sid {
        var i := FromHeading(heads, n, k - 1, a);
        IdsApart(heads, n, i, k - 1, a, b);
      }
      if |here| == 2 {
        HyphenIn(heads[k - 1].sid, heads[k - 1].sid);
      }
      NoClashJoin(before, here, sid);
    }
  }

  lemma NoClashJoin(before: seq<Section>, here: seq<Section>, sid: string)
    requires !Clash(before, sid) && |here| <= 2 && (|here| == 2 ==> here[0].sid != here[1].sid)
    requires forall a, b | a in before && b in here :: a.sid != b.sid
    ensures !Clash(before + here, sid)
  {
    var both := before + here;
    forall i, j | 0 <= i < j < |both| ensures !(both[i].sid == sid == both[j].sid) {
      assert j < |before| ==> before[i] == both[i] && before[j] == both[j];
      assert i < |before| ==> both[i] in before;
      assert j >= |before| ==> both[j] in here;
    }
  }

  /** An id is refused as declared twice only if two numbered headings carry one id: a preamble
      clashes with nothing. */
  lemma TwiceIsTwoHeadings(lines: seq<string>, sid: string)
    requires Clash(AllDeclared(Heads(lines, |lines|), |lines|, |Heads(lines, |lines|)|), sid)
    ensures !OwnIds(Heads(lines, |lines|), |Heads(lines, |lines|)|)
  {
    HeadIdsNoHyphen(lines, |lines|);
    var heads := Heads(lines, |lines|);
    if OwnIds(heads, |heads|) {
      NoClash(heads, |lines|, |heads|, sid);
    }
  }

  // --- what the sections mean ----------------------------------------------------------

  /** Two ranges share no line, or one holds the other. */
  predicate NestedOrDisjoint(a: Section, b: Section) {
    || a.end < b.start || b.end < a.start
    || (a.start <= b.start && b.end <= a.end)
    || (b.start <= a.start && a.end <= b.end)
  }

  lemma EndAfter(heads: seq<Head>, n: nat, i: nat)
    requires i < |heads| && InOrder(heads, n)
    ensures heads[i].line <= End(heads, n, i) <= n
  {
  }

  /** Of two headings, the section of the later lies inside the section of the earlier, or after it. */
  lemma LaterInsideOrAfter(heads: seq<Head>, n: nat, i: nat, j: nat)
    requires i < j < |heads| && InOrder(heads, n)
    ensures
      || End(heads, n, i) < heads[j].line
      || End(heads, n, j) <= End(heads, n, i)
  {
    var k, m := Next(heads, i, i + 1), Next(heads, j, j + 1);
    if j < k {
      assert m <= k;
      assert m < k && k < |heads| ==> heads[m].line < heads[k].line;
    }
  }

  /** What heading `i` declares starts at its line, and is the whole section or stops before the
      next heading. */
  lemma DeclaredShape(heads: seq<Head>, n: nat, i: nat, s: Section)
    requires i < |heads| && InOrder(heads, n) && s in Declared(heads, n, i)
    ensures s.start == heads[i].line <= s.end <= End(heads, n, i)
    ensures s.end == End(heads, n, i) || (i + 1 < |heads| && s.end == heads[i + 1].line - 1)
  {
    EndAfter(heads, n, i);
    if HasChild(heads, i) {
      assert Next(heads, i, i + 1) > i + 1;
    }
  }

  lemma {:induction false} FromHeading(heads: seq<Head>, n: nat, k: nat, s: Section) returns (i: nat)
    requires k <= |heads| && InOrder(heads, n) && s in AllDeclared(heads, n, k)
    ensures i < k && s in Declared(heads, n, i)
  {
    if s in AllDeclared(heads, n, k - 1) {
      i := FromHeading(heads, n, k - 1, s);
    } else {
      i := k - 1;
    }
  }

  lemma NestInOrder(heads: seq<Head>, n: nat, i: nat, j: nat, a: Section, b: Section)
    requires InOrder(heads, n) && i < j < |heads|
    requires a in Declared(heads, n, i) && b in Declared(heads, n, j)
    ensures NestedOrDisjoint(a, b)
  {
    DeclaredShape(heads, n, i, a);
    DeclaredShape(heads, n, j, b);
    LaterInsideOrAfter(heads, n, i, j);
  }

  lemma NestOfOne(heads: seq<Head>, n: nat, i: nat, a: Section, b: Section)
    requires InOrder(heads, n) && i < |heads|
    requires a in Declared(heads, n, i) && b in Declared(heads, n, i)
    ensures a.start <= a.end && NestedOrDisjoint(a, b)
  {
    DeclaredShape(heads, n, i, a);
    DeclaredShape(heads, n, i, b);
  }

  /** The sections of a specification, preambles included, are pairwise nested or disjoint. */
  lemma SectionsNest(heads: seq<Head>, n: nat, a: Section, b: Section)
    requires InOrder(heads, n)
    requires a in AllDeclared(heads, n, |heads|) && b in AllDeclared(heads, n, |heads|)
    ensures a.start <= a.end && NestedOrDisjoint(a, b)
  {
    var i := FromHeading(heads, n, |heads|, a);
    var j := FromHeading(heads, n, |heads|, b);
    NestOfOne(heads, n, i, a, a);
    if i == j {
      NestOfOne(heads, n, i, a, b);
    } else if i < j {
      NestInOrder(heads, n, i, j, a, b);
    } else {
      NestInOrder(heads, n, j, i, b, a);
    }
  }

  /** The sections that, from heading `c` on, split what is left of the section of heading `i`: each
      next one opens at the first heading, not deeper than the one before it, that is still inside. */
  function Chain(heads: seq<Head>, n: nat, i: nat, c: nat): seq<Section>
    requires i < c <= |heads| && InOrder(heads, n)
    decreases |heads| - c
  {
    if c < |heads| && heads[c].level > heads[i].level
    then [Whole(heads, n, c)] + Chain(heads, n, i, Next(heads, c, c + 1))
    else []
  }

  /** The ranges `tiles` follow each other without a gap or an overlap, from line `lo` to line `hi`. */
  predicate Tiles(tiles: seq<Section>, lo: nat, hi: nat) {
    if tiles == [] then lo == hi + 1
    else tiles[0].start == lo <= tiles[0].end && Tiles(tiles[1..], tiles[0].end + 1, hi)
  }

  lemma {:induction false} ChainTiles(heads: seq<Head>, n: nat, i: nat, c: nat)
    requires InOrder(heads, n) && i < c <= |heads|
    requires forall m | i < m < c :: heads[m].level > heads[i].level
    ensures Tiles(Chain(heads, n, i, c), if c < |heads| then heads[c].line else n + 1, End(heads, n, i))
    decreases |heads| - c
  {
    NextFrom(heads, i, c);
    if c < |heads| && heads[c].level > heads[i].level {
      var d := Next(heads, c, c + 1);
      ChainTiles(heads, n, i, d);
      EndAfter(heads, n, c);
      TilesMore(Whole(heads, n, c), Chain(heads, n, i, d), End(heads, n, i));
    }
  }

  lemma TilesMore(s: Section, rest: seq<Section>, hi: nat)
    requires s.start <= s.end && Tiles(rest, s.end + 1, hi)
    ensures Tiles([s] + rest, s.start, hi)
  {
    assert ([s] + rest)[1..] == rest;
  }

  /** Every line of a tiled range is in exactly one tile. */
  lemma {:induction false} TiledOnce(tiles: seq<Section>, lo: nat, hi: nat, line: nat)
    requires Tiles(tiles, lo, hi)
    ensures lo <= line <= hi <==> exists k :: 0 <= k < |tiles| && tiles[k].start <= line <= tiles[k].end
    ensures forall j, k | 0 <= j < k < |tiles| :: tiles[j].end < tiles[k].start
    ensures lo <= hi + 1 && forall k | 0 <= k < |tiles| :: lo <= tiles[k].start <= tiles[k].end <= hi
  {
    if tiles != [] {
      var rest := tiles[1..];
      TiledOnce(rest, tiles[0].end + 1, hi, line);
      forall k | 0 < k < |tiles| ensures tiles[k] == rest[k - 1] {
      }
      if tiles[0].end < line <= hi {
        var k :| 0 <= k < |rest| && rest[k].start <= line <= rest[k].end;
        assert tiles[k + 1] == rest[k];
      }
    }
  }

  /** The scan for the end may start at any later heading if all before it are deeper. */
  lemma {:induction false} NextFrom(heads: seq<Head>, i: nat, c: nat)
    requires i < c <= |heads|
    requires forall m | i < m < c :: heads[m].level > heads[i].level
    ensures Next(heads, i, i + 1) == Next(heads, i, c)
    decreases c
  {
    if c > i + 1 {
      NextFrom(heads, i, c - 1);
    }
  }

  /** A section whose first child is numbered is tiled by its preamble and its chained children ... */
  lemma ParentTiled(heads: seq<Head>, n: nat, i: nat)
    requires InOrder(heads, n) && i < |heads| && heads[i].sid != "" && HasChild(heads, i) && heads[i + 1].sid != ""
    ensures Preamble(heads, i) in AllDeclared(heads, n, |heads|)
    ensures Tiles([Preamble(heads, i)] + Chain(heads, n, i, i + 1), heads[i].line, End(heads, n, i))
  {
    ChainTiles(heads, n, i, i + 1);
    TilesMore(Preamble(heads, i), Chain(heads, n, i, i + 1), End(heads, n, i));
    DeclaredIn(heads, n, i, Preamble(heads, i));
  }

  /** ... each of which is declared if it is numbered. */
  lemma {:induction false} ChainDeclared(heads: seq<Head>, n: nat, i: nat, c: nat, s: Section)
    requires InOrder(heads, n) && i < c <= |heads| && s in Chain(heads, n, i, c) && s.sid != ""
    ensures s in AllDeclared(heads, n, |heads|)
    decreases |heads| - c
  {
    if s == Whole(heads, n, c) {
      DeclaredIn(heads, n, c, s);
    } else {
      ChainDeclared(heads, n, i, Next(heads, c, c + 1), s);
    }
  }

  lemma DeclaredIn(heads: seq<Head>, n: nat, i: nat, s: Section)
    requires InOrder(heads, n) && i < |heads| && s in Declared(heads, n, i)
    ensures s in AllDeclared(heads, n, |heads|)
  {
    DeclaredPrefix(heads, n, i + 1, |heads|);
    var some := AllDeclared(heads, n, i + 1);
    assert s in some;
    var k :| 0 <= k < |some| && some[k] == s;
    assert AllDeclared(heads, n, |heads|)[k] == s;
  }
}
