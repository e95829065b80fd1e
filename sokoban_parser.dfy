/**
 * `parse_state_string` of Sokoban_Starter/tester.py: reads a drawn
 * warehouse (one text line per row, the outer wall included) into a
 * `State`.  Python's `str.strip()` and `str.split('\n')` are modelled
 * here as well, since the parser is built on them.
 */
module SokobanParser {
  import opened Wrappers
  import opened Sokoban

  /* ---------------- str.strip and str.split ---------------- */

  /**
   * The characters Python's `str.isspace` accepts, and so the ones
   * `str.strip()` removes: the ASCII controls tab to carriage return and
   * the four separators 0x1c-0x1f, the space, and the Unicode separators
   * (NEL, no-break space, Ogham space, the en quad to hair space block,
   * line and paragraph separators, the narrow no-break and medium
   * mathematical spaces, and the ideographic space).
   */
  predicate IsSpace(c: char) {
    c == ' ' || ('\t' <= c <= '\r') || ('\U{1c}' <= c <= '\U{1f}')
    || c == '\U{85}' || c == '\U{a0}' || c == '\U{1680}'
    || ('\U{2000}' <= c <= '\U{200a}')
    || c == '\U{2028}' || c == '\U{2029}' || c == '\U{202f}' || c == '\U{205f}'
    || c == '\U{3000}'
  }

  /** `s.lstrip()`: the longest suffix of `s` that does not start with whitespace. */
  function StripStart(s: string): (r: string)
    ensures |r| <= |s| && r == s[|s| - |r|..]
    ensures forall k :: 0 <= k < |s| - |r| ==> IsSpace(s[k])
    ensures r != [] ==> !IsSpace(r[0])
  {
    if s != [] && IsSpace(s[0]) then StripStart(s[1..]) else s
  }

  /** `s.rstrip()`: the longest prefix of `s` that does not end with whitespace. */
  function StripEnd(s: string): (r: string)
    ensures |r| <= |s| && r == s[..|r|]
    ensures forall k :: |r| <= k < |s| ==> IsSpace(s[k])
    ensures r != [] ==> !IsSpace(r[|r| - 1])
  {
    if s != [] && IsSpace(s[|s| - 1]) then StripEnd(s[..|s| - 1]) else s
  }

  /** `s.strip()`. */
  function Strip(s: string): string {
    StripEnd(StripStart(s))
  }

  /** `r` is the piece `s[i..j]`, and everything of `s` outside it is whitespace. */
  ghost predicate TrimmedTo(s: string, r: string, i: int, j: int) {
    && 0 <= i <= j <= |s| && r == s[i..j]
    && (forall k :: 0 <= k < i ==> IsSpace(s[k]))
    && (forall k :: j <= k < |s| ==> IsSpace(s[k]))
  }

  /** `strip` keeps one contiguous piece of `s`, cuts only whitespace, and leaves none at either end. */
  lemma StripShape(s: string)
    ensures exists i, j :: TrimmedTo(s, Strip(s), i, j)
    ensures var r := Strip(s);
            r != [] ==> !IsSpace(r[0]) && !IsSpace(r[|r| - 1])
  {
    var t := StripStart(s);
    var r := StripEnd(t);
    var i := |s| - |t|;
    InfixOfSuffix(s, t, r, i);
    SpacesAfterInfix(s, t, r, i);
    assert Strip(s) == r;
    assert TrimmedTo(s, r, i, i + |r|);
  }

  /** A prefix of a suffix of `s` is an infix of `s`. */
  lemma InfixOfSuffix(s: string, t: string, r: string, i: nat)
    requires i <= |s| && t == s[i..] && |r| <= |t| && r == t[..|r|]
    ensures r == s[i..i + |r|]
  {
    forall k | 0 <= k < |r| ensures r[k] == s[i + k] {
      assert r[k] == t[k] && t[k] == s[i + k];
    }
  }

  /** Whitespace trailing a prefix of the suffix `t` of `s` trails the matching infix of `s`. */
  lemma SpacesAfterInfix(s: string, t: string, r: string, i: nat)
    requires i <= |s| && t == s[i..] && |r| <= |t|
    requires forall k :: |r| <= k < |t| ==> IsSpace(t[k])
    ensures forall k :: i + |r| <= k < |s| ==> IsSpace(s[k])
  {
    forall k | i + |r| <= k < |s| ensures IsSpace(s[k]) {
      assert s[k] == t[k - i];
    }
  }

  /** Python's `sep.join(parts)`. */
  function Join(parts: seq<string>, sep: char): string
    requires |parts| >= 1
  {
    if |parts| == 1 then parts[0] else parts[0] + [sep] + Join(parts[1..], sep)
  }

  /** `s.split(sep)` for a one-character separator: the pieces between separators, empty ones included. */
  function Split(s: string, sep: char): (parts: seq<string>)
    ensures |parts| >= 1
    ensures forall i :: 0 <= i < |parts| ==> sep !in parts[i]
  {
    if s == [] then [[]]
    else
      var rest := Split(s[1..], sep);
      if s[0] == sep then [[]] + rest else [[s[0]] + rest[0]] + rest[1..]
  }

  /** Joining the pieces with the separator gives back the text. */
  lemma {:induction false} SplitJoin(s: string, sep: char)
    ensures Join(Split(s, sep), sep) == s
  {
    if s != [] {
      var rest := Split(s[1..], sep);
      SplitJoin(s[1..], sep);
      if s[0] == sep {
        assert Split(s, sep)[1..] == rest;
      } else {
        var parts := Split(s, sep);
        if |rest| == 1 {
          assert parts == [[s[0]] + rest[0]];
        } else {
          assert parts[1..] == rest[1..];
          assert Join(rest, sep) == rest[0] + [sep] + Join(rest[1..], sep);
        }
      }
    }
  }

  /** There is one more piece than there are separators. */
  lemma {:induction false} SplitCount(s: string, sep: char)
    ensures |Split(s, sep)| == multiset(s)[sep] + 1
  {
    if s != [] {
      SplitCount(s[1..], sep);
      assert s == [s[0]] + s[1..];
    }
  }

  /* ---------------- the characters of the drawing ---------------- */

  predicate IsLower(c: char) {
    'a' <= c <= 'z'
  }

  predicate IsUpper(c: char) {
    'A' <= c <= 'Z'
  }

  /** `c.lower()` on an upper-case ASCII letter. */
  function ToLower(c: char): (l: char)
    requires IsUpper(c)
    ensures IsLower(l)
  {
    (c as int + 32) as char
  }

  /** The character marks a storage square: `.`, `*`, or a robot standing on storage. */
  predicate StorageChar(c: char) {
    c == '.' || c == '*' || IsUpper(c)
  }

  /** The character marks a box: `$`, or `*` for a box on storage. */
  predicate BoxChar(c: char) {
    c == '$' || c == '*'
  }

  /** The character names robot `r` (a lower-case letter): `r` itself, or its capital on storage. */
  predicate Names(c: char, r: char) {
    IsLower(r) && (c == r || (IsUpper(c) && ToLower(c) == r))
  }

  /** The text cell `(x, y)` exists. */
  predicate InText(lines: seq<string>, x: int, y: int) {
    0 <= y < |lines| && 0 <= x < |lines[y]|
  }

  /** Cell `(x, y)` comes before `(x0, y0)` in the row-by-row scan. */
  predicate Before(x: int, y: int, x0: int, y0: int) {
    y < y0 || (y == y0 && x < x0)
  }

  /** The text cell is a wall square strictly inside the outer wall. */
  predicate InnerWall(lines: seq<string>, x: int, y: int)
    requires InText(lines, x, y)
  {
    lines[y][x] == '#' && 0 < x < |lines[y]| - 1 && 0 < y < |lines| - 1
  }

  /** The storage squares drawn before `(x0, y0)`, moved in by one for the wall. */
  ghost function StorageBefore(lines: seq<string>, x0: int, y0: int): set<Pos> {
    set y, x | 0 <= y < |lines| && 0 <= x < |lines[y]| && Before(x, y, x0, y0) && StorageChar(lines[y][x]) :: (x - 1, y - 1)
  }

  /** The boxes drawn before `(x0, y0)`. */
  ghost function BoxesBefore(lines: seq<string>, x0: int, y0: int): set<Pos> {
    set y, x | 0 <= y < |lines| && 0 <= x < |lines[y]| && Before(x, y, x0, y0) && BoxChar(lines[y][x]) :: (x - 1, y - 1)
  }

  /** The inner walls drawn before `(x0, y0)`. */
  ghost function ObstaclesBefore(lines: seq<string>, x0: int, y0: int): set<Pos> {
    set y, x | 0 <= y < |lines| && 0 <= x < |lines[y]| && Before(x, y, x0, y0) && InnerWall(lines, x, y) :: (x - 1, y - 1)
  }

  /** Robot `r` stands at `p` by the last mention of it before `(x0, y0)`. */
  ghost predicate LastBefore(lines: seq<string>, r: char, p: Pos, x0: int, y0: int) {
    && InText(lines, p.0 + 1, p.1 + 1) && Before(p.0 + 1, p.1 + 1, x0, y0)
    && Names(lines[p.1 + 1][p.0 + 1], r)
    && forall y, x :: InText(lines, x, y) && Before(x, y, x0, y0) && Before(p.0 + 1, p.1 + 1, x, y)
                      ==> !Names(lines[y][x], r)
  }

  /** Robot `r` is mentioned before `(x0, y0)`. */
  ghost predicate MentionedBefore(lines: seq<string>, r: char, x0: int, y0: int) {
    exists y, x :: InText(lines, x, y) && Before(x, y, x0, y0) && Names(lines[y][x], r)
  }

  /** The robot dictionary after the scan reaches `(x0, y0)`: the robots mentioned so far, each at its last mention. */
  ghost predicate RobotsBefore(lines: seq<string>, m: map<char, Pos>, x0: int, y0: int) {
    && (forall r :: r in m ==> LastBefore(lines, r, m[r], x0, y0))
    && (forall r :: MentionedBefore(lines, r, x0, y0) ==> r in m)
  }

  /** Everything the scan has collected when it reaches `(x0, y0)`. */
  ghost predicate ScannedBefore(lines: seq<string>, x0: int, y0: int,
                                robots: map<char, Pos>, boxes: set<Pos>, storage: set<Pos>, obstacles: set<Pos>) {
    && storage == StorageBefore(lines, x0, y0)
    && boxes == BoxesBefore(lines, x0, y0)
    && obstacles == ObstaclesBefore(lines, x0, y0)
    && RobotsBefore(lines, robots, x0, y0)
  }

  /** The lower-case letters, in order. */
  function Alphabet(): (abc: seq<char>)
    ensures |abc| == 26
    ensures forall i :: 0 <= i < 26 ==> abc[i] == ('a' as int + i) as char
  {
    seq(26, i requires 0 <= i < 26 => ('a' as int + i) as char)
  }

  /** The robots mentioned anywhere, by letter. */
  ghost function MentionedLetters(lines: seq<string>): seq<char> {
    MentionedAmong(lines, Alphabet())
  }

  /** The letters of `xs` that name a robot somewhere in the drawing, in the order of `xs`. */
  ghost function MentionedAmong(lines: seq<string>, xs: seq<char>): (ys: seq<char>)
    ensures |ys| <= |xs|
    ensures forall c :: c in ys <==> c in xs && MentionedBefore(lines, c, 0, |lines|)
  {
    if xs == [] then []
    else
      var last := xs[|xs| - 1];
      MentionedAmong(lines, xs[..|xs| - 1]) + (if MentionedBefore(lines, last, 0, |lines|) then [last] else [])
  }

  /* ---------------- parse_state_string ---------------- */

  /**
   * `parse_state_string`: the drawing's size without the outer wall, each
   * square moved in by one, and the robots listed by letter, each where its
   * letter was last drawn.
   */
  method ParseStateString(stateString: string) returns (st: State)
    ensures var lines := Split(Strip(stateString), '\n');
            && st.height == |lines| - 2 && st.width == |lines[0]| - 2
            && st.storage == StorageBefore(lines, 0, |lines|)
            && st.boxes == BoxesBefore(lines, 0, |lines|)
            && st.obstacles == ObstaclesBefore(lines, 0, |lines|)
            && |st.robots| == |MentionedLetters(lines)|
            && forall i :: 0 <= i < |st.robots| ==> LastBefore(lines, MentionedLetters(lines)[i], st.robots[i], 0, |lines|)
  {
    var lines := Split(Strip(stateString), '\n');
    var height := |lines| - 2;
    var width := |lines[0]| - 2;
    var robots: map<char, Pos> := map[];
    var boxes: set<Pos> := {};
    var storage: set<Pos> := {};
    var obstacles: set<Pos> := {};
    ScanStart(lines);
    for y := 0 to |lines|
      invariant ScannedBefore(lines, 0, y, robots, boxes, storage, obstacles)
    {
      var line := lines[y];
      for x := 0 to |line|
        invariant ScannedBefore(lines, x, y, robots, boxes, storage, obstacles)
      {
        var ch := line[x];
        ghost var before := (robots, boxes, storage, obstacles);
        if ch == '.' {
          storage := storage + {(x - 1, y - 1)};
        } else if ch == '#' {
          if 0 < x < |line| - 1 && 0 < y < |lines| - 1 {
            obstacles := obstacles + {(x - 1, y - 1)};
          }
        } else if ch == '$' {
          boxes := boxes + {(x - 1, y - 1)};
        } else if ch == '*' {
          boxes := boxes + {(x - 1, y - 1)};
          storage := storage + {(x - 1, y - 1)};
        } else if IsLower(ch) {
          robots := robots[ch := (x - 1, y - 1)];
        } else if IsUpper(ch) {
          robots := robots[ToLower(ch) := (x - 1, y - 1)];
          storage := storage + {(x - 1, y - 1)};
        }
        ScanStep(lines, x, y, before.0, before.1, before.2, before.3, robots, boxes, storage, obstacles);
      }
      ScanNextRow(lines, y, robots, boxes, storage, obstacles);
    }
    var robotList := SortedRobots(lines, robots);
    st := State(width, height, robotList, boxes, storage, obstacles);
  }

  /** `sorted(robots.items())`, keeping the positions: the robots in letter order. */
  method SortedRobots(lines: seq<string>, robots: map<char, Pos>) returns (robotList: seq<Pos>)
    requires RobotsBefore(lines, robots, 0, |lines|)
    ensures |robotList| == |MentionedLetters(lines)|
    ensures forall i :: 0 <= i < |robotList| ==> LastBefore(lines, MentionedLetters(lines)[i], robotList[i], 0, |lines|)
  {
    robotList := [];
    ghost var letters: seq<char> := [];
    var abc := Alphabet();
    for k := 0 to 26
      invariant |robotList| == |letters|
      invariant letters == MentionedAmong(lines, abc[..k])
      invariant forall i :: 0 <= i < |robotList| ==> letters[i] in robots && robotList[i] == robots[letters[i]]
    {
      var c := abc[k];
      AmongStep(lines, robots, abc, k);
      if c in robots {
        robotList := robotList + [robots[c]];
        letters := letters + [c];
      }
    }
    assert abc[..26] == abc;
  }

  /** One more letter of the alphabet: it is kept exactly when the dictionary holds it. */
  lemma AmongStep(lines: seq<string>, robots: map<char, Pos>, abc: seq<char>, k: nat)
    requires RobotsBefore(lines, robots, 0, |lines|) && k < |abc|
    ensures MentionedAmong(lines, abc[..k + 1]) == MentionedAmong(lines, abc[..k]) + (if abc[k] in robots then [abc[k]] else [])
  {
    assert abc[..k + 1][..k] == abc[..k];
    RobotKeyIff(lines, robots, abc[k]);
  }

  /** A letter is a key of the final dictionary exactly when some cell names it. */
  lemma RobotKeyIff(lines: seq<string>, robots: map<char, Pos>, c: char)
    requires RobotsBefore(lines, robots, 0, |lines|)
    ensures c in robots <==> MentionedBefore(lines, c, 0, |lines|)
  {
    if c in robots {
      var p := robots[c];
      assert LastBefore(lines, c, p, 0, |lines|);
      assert InText(lines, p.0 + 1, p.1 + 1) && Before(p.0 + 1, p.1 + 1, 0, |lines|) && Names(lines[p.1 + 1][p.0 + 1], c);
    }
  }

  /** Before the scan nothing is collected. */
  lemma ScanStart(lines: seq<string>)
    ensures ScannedBefore(lines, 0, 0, map[], {}, {}, {})
  {
    assert StorageBefore(lines, 0, 0) == {};
    assert BoxesBefore(lines, 0, 0) == {};
    assert ObstaclesBefore(lines, 0, 0) == {};
  }

  /** The end of a row is the start of the next one. */
  lemma ScanNextRow(lines: seq<string>, y: int, robots: map<char, Pos>, boxes: set<Pos>, storage: set<Pos>, obstacles: set<Pos>)
    requires 0 <= y < |lines|
    requires ScannedBefore(lines, |lines[y]|, y, robots, boxes, storage, obstacles)
    ensures ScannedBefore(lines, 0, y + 1, robots, boxes, storage, obstacles)
  {
    assert StorageBefore(lines, |lines[y]|, y) == StorageBefore(lines, 0, y + 1);
    assert BoxesBefore(lines, |lines[y]|, y) == BoxesBefore(lines, 0, y + 1);
    assert ObstaclesBefore(lines, |lines[y]|, y) == ObstaclesBefore(lines, 0, y + 1);
    forall r | MentionedBefore(lines, r, 0, y + 1) ensures MentionedBefore(lines, r, |lines[y]|, y) {
      var y', x' :| InText(lines, x', y') && Before(x', y', 0, y + 1) && Names(lines[y'][x'], r);
      assert Before(x', y', |lines[y]|, y);
    }
  }

  /** Scanning one more cell. */
  lemma ScanStep(lines: seq<string>, x: int, y: int,
                 robots0: map<char, Pos>, boxes0: set<Pos>, storage0: set<Pos>, obstacles0: set<Pos>,
                 robots: map<char, Pos>, boxes: set<Pos>, storage: set<Pos>, obstacles: set<Pos>)
    requires InText(lines, x, y)
    requires ScannedBefore(lines, x, y, robots0, boxes0, storage0, obstacles0)
    requires var c, p := lines[y][x], (x - 1, y - 1);
             && storage == (if StorageChar(c) then storage0 + {p} else storage0)
             && boxes == (if BoxChar(c) then boxes0 + {p} else boxes0)
             && obstacles == (if InnerWall(lines, x, y) then obstacles0 + {p} else obstacles0)
             && robots == (if IsLower(c) then robots0[c := p] else if IsUpper(c) then robots0[ToLower(c) := p] else robots0)
    ensures ScannedBefore(lines, x + 1, y, robots, boxes, storage, obstacles)
  {
    SetsStep(lines, x, y);
    RobotsStep(lines, x, y, robots0, robots);
  }

  /** One more cell adds at most its own square to each set. */
  lemma SetsStep(lines: seq<string>, x: int, y: int)
    requires InText(lines, x, y)
    ensures var c, p := lines[y][x], (x - 1, y - 1);
            && StorageBefore(lines, x + 1, y) == StorageBefore(lines, x, y) + (if StorageChar(c) then {p} else {})
            && BoxesBefore(lines, x + 1, y) == BoxesBefore(lines, x, y) + (if BoxChar(c) then {p} else {})
            && ObstaclesBefore(lines, x + 1, y) == ObstaclesBefore(lines, x, y) + (if InnerWall(lines, x, y) then {p} else {})
  {
    var c, p := lines[y][x], (x - 1, y - 1);
    var St1, St0 := StorageBefore(lines, x + 1, y), StorageBefore(lines, x, y);
    forall q | q in St1 ensures q in St0 || (q == p && StorageChar(c)) {
      var yq, xq :| 0 <= yq < |lines| && 0 <= xq < |lines[yq]| && Before(xq, yq, x + 1, y) && StorageChar(lines[yq][xq]) && q == (xq - 1, yq - 1);
      if !(xq == x && yq == y) {
        assert Before(xq, yq, x, y);
      }
    }
    var Bo1, Bo0 := BoxesBefore(lines, x + 1, y), BoxesBefore(lines, x, y);
    forall q | q in Bo1 ensures q in Bo0 || (q == p && BoxChar(c)) {
      var yq, xq :| 0 <= yq < |lines| && 0 <= xq < |lines[yq]| && Before(xq, yq, x + 1, y) && BoxChar(lines[yq][xq]) && q == (xq - 1, yq - 1);
      if !(xq == x && yq == y) {
        assert Before(xq, yq, x, y);
      }
    }
    var Ob1, Ob0 := ObstaclesBefore(lines, x + 1, y), ObstaclesBefore(lines, x, y);
    forall q | q in Ob1 ensures q in Ob0 || (q == p && InnerWall(lines, x, y)) {
      var yq, xq :| 0 <= yq < |lines| && 0 <= xq < |lines[yq]| && Before(xq, yq, x + 1, y) && InnerWall(lines, xq, yq) && q == (xq - 1, yq - 1);
      if !(xq == x && yq == y) {
        assert Before(xq, yq, x, y);
      }
    }
  }

  /** One more cell: a letter moves its robot there, anything else leaves the dictionary alone. */
  lemma RobotsStep(lines: seq<string>, x: int, y: int, robots0: map<char, Pos>, robots: map<char, Pos>)
    requires InText(lines, x, y)
    requires RobotsBefore(lines, robots0, x, y)
    requires var c, p := lines[y][x], (x - 1, y - 1);
             robots == (if IsLower(c) then robots0[c := p] else if IsUpper(c) then robots0[ToLower(c) := p] else robots0)
    ensures RobotsBefore(lines, robots, x + 1, y)
  {
    var c, p := lines[y][x], (x - 1, y - 1);
    forall r | r in robots ensures LastBefore(lines, r, robots[r], x + 1, y) {
      if Names(c, r) {
        assert robots[r] == p;
      } else {
        assert r in robots0 && robots[r] == robots0[r];
        assert LastBefore(lines, r, robots0[r], x, y);
      }
    }
    forall r | MentionedBefore(lines, r, x + 1, y) ensures r in robots {
      var y', x' :| InText(lines, x', y') && Before(x', y', x + 1, y) && Names(lines[y'][x'], r);
      if !(x' == x && y' == y) {
        assert MentionedBefore(lines, r, x, y);
      }
    }
  }

  /** No two robots of a parsed state stand on the same square. */
  lemma ParsedRobotsApart(lines: seq<string>, robots: seq<Pos>)
    requires |robots| == |MentionedLetters(lines)|
    requires forall i :: 0 <= i < |robots| ==> LastBefore(lines, MentionedLetters(lines)[i], robots[i], 0, |lines|)
    ensures forall i, j :: 0 <= i < j < |robots| ==> robots[i] != robots[j]
  {
    var letters := MentionedLetters(lines);
    LettersDistinct(lines);
    assert Increasing(letters);
    forall i, j | 0 <= i < j < |robots| ensures robots[i] != robots[j] {
      assert LastBefore(lines, letters[i], robots[i], 0, |lines|);
      assert LastBefore(lines, letters[j], robots[j], 0, |lines|);
    }
  }

  /** The letters come out in strictly increasing order, hence distinct. */
  lemma LettersDistinct(lines: seq<string>)
    ensures Increasing(MentionedLetters(lines))
  {
    var abc := Alphabet();
    forall i, j | 0 <= i < j < |abc| ensures abc[i] < abc[j] {
      assert abc[i] as int == 'a' as int + i && abc[j] as int == 'a' as int + j;
    }
    AmongIncreasing(lines, abc);
    assert MentionedLetters(lines) == MentionedAmong(lines, abc);
  }

  /** The letters are in strictly increasing order. */
  predicate Increasing(cs: seq<char>) {
    forall i, j :: 0 <= i < j < |cs| ==> cs[i] < cs[j]
  }

  lemma {:induction false} AmongIncreasing(lines: seq<string>, xs: seq<char>)
    requires Increasing(xs)
    ensures Increasing(MentionedAmong(lines, xs))
  {
    if xs != [] {
      var front, last := xs[..|xs| - 1], xs[|xs| - 1];
      assert forall i, j :: 0 <= i < j < |front| ==> front[i] == xs[i] && front[j] == xs[j];
      AmongIncreasing(lines, front);
      var ys := MentionedAmong(lines, front);
      var zs := MentionedAmong(lines, xs);
      var extra := if MentionedBefore(lines, last, 0, |lines|) then [last] else [];
      assert zs == ys + extra;
      forall i, j | 0 <= i < j < |zs| ensures zs[i] < zs[j] {
        assert zs[i] == ys[i];
        if j < |ys| {
          assert zs[j] == ys[j];
        } else {
          assert zs[j] == extra[0] == last;
          assert ys[i] in front;
          var k :| 0 <= k < |front| && front[k] == ys[i];
          assert front[k] == xs[k] && xs[k] < xs[|xs| - 1];
        }
      }
    }
  }

  /** Each parsed square is the text cell one right and one down of it, drawn with the matching character. */
  lemma ParsedSquares(lines: seq<string>, p: Pos)
    ensures var (x, y) := (p.0 + 1, p.1 + 1);
            && (p in StorageBefore(lines, 0, |lines|) <==> InText(lines, x, y) && StorageChar(lines[y][x]))
            && (p in BoxesBefore(lines, 0, |lines|) <==> InText(lines, x, y) && BoxChar(lines[y][x]))
            && (p in ObstaclesBefore(lines, 0, |lines|) <==> InText(lines, x, y) && InnerWall(lines, x, y))
  {
    var (x, y) := (p.0 + 1, p.1 + 1);
    if InText(lines, x, y) {
      assert Before(x, y, 0, |lines|) && p == (x - 1, y - 1);
    }
  }

  /** Every obstacle of a parsed state lies inside the outer wall, above the bottom row. */
  lemma ObstaclesInside(lines: seq<string>)
    ensures forall p :: p in ObstaclesBefore(lines, 0, |lines|) ==> 0 <= p.0 && 0 <= p.1 < |lines| - 2
  {
  }
}
