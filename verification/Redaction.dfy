/** Overlap resolution and redaction.  The hits of the detectors, each with its mask, are arbitrary input;
    a hit is never empty. */
module Redaction {
  import opened GuardrailFlags

  datatype Match = Match(severity: Severity, score: real, start: nat, end: nat, masked: string)

  predicate Overlap(a: Match, b: Match)
  {
    a.start < b.end && b.start < a.end
  }

  /** k is at least as strong as m: more severe, else of a higher score, else starting further left, else at least
      as long. */
  predicate AtLeast(k: Match, m: Match)
  {
    || k.severity.Rank() > m.severity.Rank()
    || (k.severity == m.severity && k.score > m.score)
    || (k.severity == m.severity && k.score == m.score && k.start < m.start)
    || (k.severity == m.severity && k.score == m.score && k.start == m.start && k.end >= m.end)
  }

  // ------------------------------------------------------------ stable sorting

  datatype Order = ByStrength | ByStart

  predicate Before(o: Order, a: Match, b: Match)
  {
    match o
    case ByStart => a.start < b.start
    case ByStrength =>
      if a.severity.Rank() != b.severity.Rank() then a.severity.Rank() > b.severity.Rank()
      else if a.score != b.score then a.score > b.score
      else if a.start != b.start then a.start < b.start
      else a.end > b.end
  }

  predicate Sorted(o: Order, s: seq<Match>)
  {
    forall i, j :: 0 <= i < j < |s| ==> !Before(o, s[j], s[i])
  }

  /** x goes after everything it does not precede, so equal elements keep their order. */
  function Insert(o: Order, x: Match, s: seq<Match>): seq<Match>
  {
    if s == [] || !Before(o, x, s[|s| - 1]) then s + [x]
    else Insert(o, x, s[..|s| - 1]) + [s[|s| - 1]]
  }

  function Sort(o: Order, s: seq<Match>): seq<Match>
  {
    if s == [] then [] else Insert(o, s[|s| - 1], Sort(o, s[..|s| - 1]))
  }

  lemma {:induction false} InsertAdds(o: Order, x: Match, s: seq<Match>)
    ensures multiset(Insert(o, x, s)) == multiset(s) + multiset{x}
    ensures forall m :: m in Insert(o, x, s) ==> m in s || m == x
  {
    if s != [] && Before(o, x, s[|s| - 1]) {
      InsertAdds(o, x, s[..|s| - 1]);
      assert s == s[..|s| - 1] + [s[|s| - 1]];
    }
  }

  lemma BeforeIsStrict(o: Order, x: Match, y: Match)
    requires Before(o, x, y)
    ensures !Before(o, y, x)
  {
  }

  lemma NotBeforeChains(o: Order, x: Match, y: Match, z: Match)
    requires !Before(o, y, x) && !Before(o, z, y)
    ensures !Before(o, z, x)
  {
  }

  lemma {:induction false} InsertSorts(o: Order, x: Match, s: seq<Match>)
    requires Sorted(o, s)
    ensures Sorted(o, Insert(o, x, s))
  {
    if s != [] {
      var front, last := s[..|s| - 1], s[|s| - 1];
      if Before(o, x, last) {
        InsertSorts(o, x, front);
        InsertAdds(o, x, front);
        BeforeIsStrict(o, x, last);
        forall m | m in Insert(o, x, front) ensures !Before(o, last, m) { assert m in front || m == x; }
      } else {
        forall i | 0 <= i < |s| ensures !Before(o, x, s[i]) {
          if i < |s| - 1 { NotBeforeChains(o, s[i], last, x); }
        }
      }
    }
  }

  lemma {:induction false} SortSorts(o: Order, s: seq<Match>)
    ensures Sorted(o, Sort(o, s)) && multiset(Sort(o, s)) == multiset(s)
  {
    if s != [] {
      assert s == s[..|s| - 1] + [s[|s| - 1]];
      SortSorts(o, s[..|s| - 1]);
      InsertSorts(o, s[|s| - 1], Sort(o, s[..|s| - 1]));
      InsertAdds(o, s[|s| - 1], Sort(o, s[..|s| - 1]));
    }
  }

  // ------------------------------------------------------------ what is kept

  predicate Clashes(kept: seq<Match>, m: Match)
  {
    exists k :: k in kept && Overlap(m, k)
  }

  /** Candidate by candidate: keep what overlaps nothing kept before. */
  function Greedy(ordered: seq<Match>): seq<Match>
  {
    if ordered == [] then []
    else
      var kept, m := Greedy(ordered[..|ordered| - 1]), ordered[|ordered| - 1];
      if Clashes(kept, m) then kept else kept + [m]
  }

  function Resolved(matches: seq<Match>): seq<Match>
  {
    Sort(ByStart, Greedy(Sort(ByStrength, matches)))
  }

  predicate Disjoint(s: seq<Match>)
  {
    forall i, j :: 0 <= i < j < |s| ==> !Overlap(s[i], s[j])
  }

  lemma {:induction false} GreedyDisjoint(ordered: seq<Match>)
    ensures Disjoint(Greedy(ordered)) && multiset(Greedy(ordered)) <= multiset(ordered)
    ensures forall m :: m in Greedy(ordered) ==> m in ordered
  {
    if ordered != [] {
      var front, m := ordered[..|ordered| - 1], ordered[|ordered| - 1];
      assert ordered == front + [m];
      GreedyDisjoint(front);
      var kept := Greedy(front);
      if !Clashes(kept, m) {
        forall k | k in kept ensures !Overlap(k, m) { assert Overlap(m, k) ==> Clashes(kept, m); }
      }
    }
  }

  /** k holds the place of m. */
  predicate Covers(k: Match, m: Match)
  {
    Overlap(k, m) && AtLeast(k, m)
  }

  predicate Covered(kept: seq<Match>, m: Match)
  {
    exists k :: k in kept && Covers(k, m)
  }

  lemma {:induction false} GreedyCovers(ordered: seq<Match>)
    requires Sorted(ByStrength, ordered) && forall m :: m in ordered ==> m.start < m.end
    ensures forall m :: m in ordered ==> Covered(Greedy(ordered), m)
  {
    if ordered != [] {
      var front, m := ordered[..|ordered| - 1], ordered[|ordered| - 1];
      assert ordered == front + [m] && m in ordered;
      GreedyCovers(front);
      GreedyDisjoint(front);
      GreedyStep(front, m, Greedy(front));
    }
  }

  lemma {:induction false} GreedyStep(front: seq<Match>, m: Match, kept: seq<Match>)
    requires Sorted(ByStrength, front + [m]) && m.start < m.end
    requires (forall k :: k in kept ==> k in front) && forall x :: x in front ==> Covered(kept, x)
    ensures var next := if Clashes(kept, m) then kept else kept + [m];
            forall x :: x in front + [m] ==> Covered(next, x)
  {
    if Clashes(kept, m) {
      var k :| k in kept && Overlap(m, k);
      LaterIsWeaker(front, m, k);
      assert Covers(k, m);
    } else {
      assert m in kept + [m] && Covers(m, m);
      forall x | x in front ensures Covered(kept + [m], x) {
        var k :| k in kept && Covers(k, x);
        assert k in kept + [m];
      }
    }
  }

  lemma LaterIsWeaker(front: seq<Match>, m: Match, k: Match)
    requires Sorted(ByStrength, front + [m]) && k in front
    ensures AtLeast(k, m)
  {
    var i :| 0 <= i < |front| && front[i] == k;
    assert (front + [m])[i] == k && (front + [m])[|front|] == m;
    RankInjective();
  }

  predicate LeftToRight(s: seq<Match>)
  {
    forall i, j :: 0 <= i < j < |s| ==> s[i].end <= s[j].start
  }

  /** In a disjoint list ordered by start the intervals come one after the other. */
  lemma DisjointInOrder(s: seq<Match>)
    requires Sorted(ByStart, s) && Disjoint(s) && forall m :: m in s ==> m.start < m.end
    ensures LeftToRight(s)
  {
    forall i, j | 0 <= i < j < |s| ensures s[i].end <= s[j].start {
      assert s[i] in s && s[j] in s && !Overlap(s[i], s[j]);
    }
  }

  lemma {:induction false} InsertDisjoint(o: Order, x: Match, s: seq<Match>)
    requires Disjoint(s) && forall m :: m in s ==> !Overlap(m, x)
    ensures Disjoint(Insert(o, x, s))
    ensures forall m :: m in Insert(o, x, s) ==> m in s || m == x
  {
    if s != [] && Before(o, x, s[|s| - 1]) {
      var front, last := s[..|s| - 1], s[|s| - 1];
      assert s == front + [last] && last in s;
      InsertDisjoint(o, x, front);
      forall m | m in front ensures !Overlap(m, last) { }
    }
  }

  lemma {:induction false} SortDisjoint(o: Order, s: seq<Match>)
    requires Disjoint(s)
    ensures Disjoint(Sort(o, s)) && forall m :: m in Sort(o, s) ==> m in s
  {
    if s != [] {
      var front, last := s[..|s| - 1], s[|s| - 1];
      assert s == front + [last];
      SortDisjoint(o, front);
      forall m | m in Sort(o, front) ensures !Overlap(m, last) { }
      InsertDisjoint(o, last, Sort(o, front));
    }
  }

  /** What is kept is disjoint and in text order, comes from the candidates, and every candidate overlaps
      a kept one that is at least as strong (itself, when it is kept). */
  lemma {:induction false} ResolvedKeepsTheStrongest(matches: seq<Match>)
    requires forall m :: m in matches ==> m.start < m.end
    ensures LeftToRight(Resolved(matches)) && multiset(Resolved(matches)) <= multiset(matches)
    ensures forall m :: m in matches ==> Covered(Resolved(matches), m)
  {
    var ordered := Sort(ByStrength, matches);
    var kept := Greedy(ordered);
    SortSorts(ByStrength, matches);
    SameMembers(matches, ordered);
    GreedyDisjoint(ordered);
    GreedyCovers(ordered);
    SortSorts(ByStart, kept);
    SortDisjoint(ByStart, kept);
    SameMembers(kept, Resolved(matches));
    DisjointInOrder(Resolved(matches));
    forall m | m in matches ensures Covered(Resolved(matches), m) {
      var k :| k in kept && Covers(k, m);
      assert k in Resolved(matches);
    }
  }

  lemma {:induction false} SameMembers(s: seq<Match>, t: seq<Match>)
    requires multiset(s) == multiset(t)
    ensures forall m :: m in s <==> m in t
  {
    forall m ensures m in s <==> m in t { assert m in multiset(s) <==> m in multiset(t); }
  }

  lemma {:induction false} ClashStep(kept: seq<Match>, j: nat, m: Match)
    requires j < |kept|
    ensures Clashes(kept[..j + 1], m) <==> Clashes(kept[..j], m) || Overlap(m, kept[j])
  {
  }

  method ResolveOverlaps(matches: seq<Match>) returns (kept: seq<Match>)
    ensures kept == Resolved(matches)
  {
    var ordered := Sort(ByStrength, matches);
    kept := [];
    for i := 0 to |ordered|
      invariant kept == Greedy(ordered[..i])
    {
      assert ordered[..i + 1][..i] == ordered[..i];
      var clash, j := false, 0;
      while j < |kept| && !clash
        invariant j <= |kept| && (clash <==> Clashes(kept[..j], ordered[i]))
      {
        ClashStep(kept, j, ordered[i]);
        clash := ordered[i].start < kept[j].end && kept[j].start < ordered[i].end;
        j := j + 1;
      }
      assert j == |kept| ==> kept[..j] == kept;
      if !clash { kept := kept + [ordered[i]]; }
    }
    assert ordered[..|ordered|] == ordered;
    kept := Sort(ByStart, kept);
  }

  // -------------------------------------------------------------- the splice

  predicate Fits(text: string, kept: seq<Match>)
  {
    LeftToRight(kept) && forall k :: k in kept ==> k.start < k.end <= |text|
  }

  predicate StartsAt(kept: seq<Match>, j: int, i: int)
  {
    0 <= j < |kept| && kept[j].start == i
  }

  predicate Masks(kept: seq<Match>, j: int, i: int)
  {
    0 <= j < |kept| && kept[j].start <= i < kept[j].end
  }

  /** What stands for character i: a whole mask where a kept interval starts, nothing inside one, the
      character itself outside. */
  ghost function Emit(text: string, kept: seq<Match>, i: nat): string
    requires i < |text|
  {
    if exists j :: StartsAt(kept, j, i) then
      var j :| StartsAt(kept, j, i);
      kept[j].masked
    else if exists j :: Masks(kept, j, i) then ""
    else [text[i]]
  }

  ghost function Render(text: string, kept: seq<Match>, lo: nat, hi: nat): string
    requires lo <= hi <= |text|
  {
    if lo == hi then "" else Render(text, kept, lo, hi - 1) + Emit(text, kept, hi - 1)
  }

  lemma {:induction false} RenderConcat(text: string, kept: seq<Match>, lo: nat, mid: nat, hi: nat)
    requires lo <= mid <= hi <= |text|
    ensures Render(text, kept, lo, hi) == Render(text, kept, lo, mid) + Render(text, kept, mid, hi)
    decreases hi
  {
    if mid < hi { RenderConcat(text, kept, lo, mid, hi - 1); }
  }

  lemma EmitOutside(text: string, kept: seq<Match>, i: nat)
    requires i < |text| && (forall k :: k in kept ==> k.start < k.end) && forall j :: !Masks(kept, j, i)
    ensures Emit(text, kept, i) == [text[i]]
  {
    forall j ensures !StartsAt(kept, j, i) {
      assert !Masks(kept, j, i);
      if 0 <= j < |kept| { assert kept[j] in kept; }
    }
  }

  lemma {:induction false} RenderOutside(text: string, kept: seq<Match>, lo: nat, hi: nat)
    requires lo <= hi <= |text| && forall k :: k in kept ==> k.start < k.end
    requires forall i, j :: lo <= i < hi ==> !Masks(kept, j, i)
    ensures Render(text, kept, lo, hi) == text[lo..hi]
    decreases hi
  {
    if lo < hi {
      RenderOutside(text, kept, lo, hi - 1);
      EmitOutside(text, kept, hi - 1);
      assert text[lo..hi] == text[lo..hi - 1] + [text[hi - 1]];
    }
  }

  /** Intervals in order never share a character. */
  lemma OneMask(text: string, kept: seq<Match>, j: nat, i: int, other: int)
    requires Fits(text, kept) && Masks(kept, j, i) && Masks(kept, other, i)
    ensures other == j
  {
  }

  lemma {:induction false} RenderMasked(text: string, kept: seq<Match>, j: nat, hi: nat)
    requires Fits(text, kept) && j < |kept| && kept[j] in kept && kept[j].start < hi <= kept[j].end
    ensures Render(text, kept, kept[j].start, hi) == kept[j].masked
    decreases hi
  {
    var i := hi - 1;
    assert Masks(kept, j, i);
    forall other | StartsAt(kept, other, i) ensures other == j {
      assert kept[other] in kept && Masks(kept, other, i);
      OneMask(text, kept, j, i, other);
    }
    if i == kept[j].start {
      assert StartsAt(kept, j, i);
      assert Render(text, kept, i, i) == "";
    } else {
      RenderMasked(text, kept, j, i);
      assert Emit(text, kept, i) == "";
    }
  }

  /** Splice the masks in: character by character the result is what `Emit` says. */
  method Splice(text: string, kept: seq<Match>) returns (redacted: string)
    requires Fits(text, kept)
    ensures redacted == Render(text, kept, 0, |text|)
  {
    redacted := "";
    var cursor := 0;
    for n := 0 to |kept|
      invariant cursor == if n == 0 then 0 else kept[n - 1].end
      invariant cursor <= |text| && redacted == Render(text, kept, 0, cursor)
    {
      var m := kept[n];
      assert m in kept;
      Gap(text, kept, n, cursor);
      RenderMasked(text, kept, n, m.end);
      RenderConcat(text, kept, 0, cursor, m.start);
      RenderConcat(text, kept, 0, m.start, m.end);
      redacted := redacted + text[cursor..m.start];
      redacted := redacted + m.masked;
      cursor := m.end;
      if n + 1 == |kept| { assert kept[n] in kept; }
    }
    Tail(text, kept, cursor);
    RenderConcat(text, kept, 0, cursor, |text|);
    redacted := redacted + text[cursor..];
  }

  lemma {:induction false} Gap(text: string, kept: seq<Match>, n: nat, cursor: nat)
    requires Fits(text, kept) && n < |kept| && cursor == if n == 0 then 0 else kept[n - 1].end
    ensures cursor <= kept[n].start <= |text| &&
        Render(text, kept, cursor, kept[n].start) == text[cursor..kept[n].start]
  {
    assert kept[n] in kept;
    forall i, j | cursor <= i < kept[n].start ensures !Masks(kept, j, i) {
      if 0 <= j < n - 1 { assert kept[j].end <= kept[n - 1].start && kept[n - 1] in kept; }
      if n < j < |kept| { assert kept[n].end <= kept[j].start; }
    }
    RenderOutside(text, kept, cursor, kept[n].start);
  }

  lemma {:induction false} Tail(text: string, kept: seq<Match>, cursor: nat)
    requires Fits(text, kept) && cursor <= |text| && cursor == if |kept| == 0 then 0 else kept[|kept| - 1].end
    ensures Render(text, kept, cursor, |text|) == text[cursor..]
  {
    forall i, j | cursor <= i < |text| ensures !Masks(kept, j, i) {
      if 0 <= j < |kept| - 1 { assert kept[j].end <= kept[|kept| - 1].start && kept[|kept| - 1] in kept; }
    }
    RenderOutside(text, kept, cursor, |text|);
  }

  // ------------------------------------------------------ the same from the right

  /** The last mask in place of its interval, and the rest of the text before it likewise. */
  function Spliced(text: string, kept: seq<Match>): string
    requires Fits(text, kept)
  {
    if kept == [] then text
    else
      var last := kept[|kept| - 1];
      FrontFits(text, kept);
      Spliced(text[..last.start], kept[..|kept| - 1]) + last.masked + text[last.end..]
  }

  lemma FrontFits(text: string, kept: seq<Match>)
    requires Fits(text, kept) && kept != []
    ensures var last := kept[|kept| - 1];
            last.start < last.end <= |text| && Fits(text[..last.start], kept[..|kept| - 1])
  {
    var front, last := kept[..|kept| - 1], kept[|kept| - 1];
    assert last in kept;
    forall k | k in front ensures k.start < k.end <= last.start {
      var j :| 0 <= j < |front| && front[j] == k;
      assert kept[j] in kept && kept[j].end <= last.start;
    }
  }

  lemma OneStart(text: string, kept: seq<Match>, i: nat, j: int, l: int)
    requires Fits(text, kept) && StartsAt(kept, j, i) && StartsAt(kept, l, i)
    ensures j == l
  {
    assert kept[j] in kept && kept[l] in kept;
  }

  lemma SameEmit(text: string, kept: seq<Match>, i: nat)
    requires Fits(text, kept) && kept != [] && i < kept[|kept| - 1].start <= |text|
    ensures Emit(text, kept, i) == Emit(text[..kept[|kept| - 1].start], kept[..|kept| - 1], i)
  {
    var front := kept[..|kept| - 1];
    FrontFits(text, kept);
    assert forall j :: (StartsAt(kept, j, i) <==> StartsAt(front, j, i)) && (Masks(kept, j, i) <==> Masks(front, j, i));
    forall j, l | StartsAt(kept, j, i) && StartsAt(kept, l, i) ensures j == l { OneStart(text, kept, i, j, l); }
  }

  lemma {:induction false} EqualRender(a: string, kept: seq<Match>, b: string, other: seq<Match>, hi: nat)
    requires hi <= |a| && hi <= |b| && forall i :: 0 <= i < hi ==> Emit(a, kept, i) == Emit(b, other, i)
    ensures Render(a, kept, 0, hi) == Render(b, other, 0, hi)
  {
    if hi > 0 { EqualRender(a, kept, b, other, hi - 1); }
  }

  lemma SameRender(text: string, kept: seq<Match>)
    requires Fits(text, kept) && kept != [] && kept[|kept| - 1].start <= |text|
    ensures var cut := kept[|kept| - 1].start;
            Render(text, kept, 0, cut) == Render(text[..cut], kept[..|kept| - 1], 0, cut)
  {
    var cut, front := kept[|kept| - 1].start, kept[..|kept| - 1];
    forall i | 0 <= i < cut ensures Emit(text, kept, i) == Emit(text[..cut], front, i) { SameEmit(text, kept, i); }
    EqualRender(text, kept, text[..cut], front, cut);
  }

  /** Character by character and mask by mask come to the same text. */
  lemma {:induction false} RenderIsSpliced(text: string, kept: seq<Match>)
    requires Fits(text, kept)
    ensures Render(text, kept, 0, |text|) == Spliced(text, kept)
    decreases |kept|
  {
    if kept == [] {
      Tail(text, kept, 0);
    } else {
      var last := kept[|kept| - 1];
      FrontFits(text, kept);
      RenderConcat(text, kept, 0, last.end, |text|);
      RenderConcat(text, kept, 0, last.start, last.end);
      RenderMasked(text, kept, |kept| - 1, last.end);
      Tail(text, kept, last.end);
      SameRender(text, kept);
      RenderIsSpliced(text[..last.start], kept[..|kept| - 1]);
    }
  }

  /** The whole of `redact_text` on the hits it was given. */
  method RedactText(text: string, found: seq<Match>) returns (redacted: string, kept: seq<Match>)
    requires forall m :: m in found ==> m.start < m.end <= |text|
    ensures kept == Resolved(found) && Fits(text, kept)
    ensures forall m :: m in found ==> Covered(kept, m)
    ensures redacted == Render(text, kept, 0, |text|)
  {
    kept := ResolveOverlaps(found);
    ResolvedKeepsTheStrongest(found);
    forall k | k in kept ensures k.start < k.end <= |text| { assert k in multiset(kept); }
    if kept == [] {
      Tail(text, kept, 0);
      redacted := text;
    } else {
      redacted := Splice(text, kept);
    }
  }

  // ------------------------------------------------------- collecting the hits

  /** A pattern's regex hit; `valid` is its validator's answer, and an empty value is never a hit. */
  datatype Hit = Hit(hit: Match, valid: bool)

  function ValidHits(hits: seq<Hit>): seq<Match>
  {
    if hits == [] then []
    else
      var front, h := ValidHits(hits[..|hits| - 1]), hits[|hits| - 1];
      if h.valid && h.hit.start < h.hit.end then front + [h.hit] else front
  }

  function AllValidHits(patterns: seq<seq<Hit>>): seq<Match>
  {
    if patterns == [] then [] else AllValidHits(patterns[..|patterns| - 1]) + ValidHits(patterns[|patterns| - 1])
  }

  /** No pattern's loop breaks off before its last valid hit: it has at most one, or all still fit. */
  ghost predicate Uncut(patterns: seq<seq<Hit>>, maxMatches: nat)
  {
    forall i :: 0 <= i < |patterns| ==> PatternFits(patterns, i, maxMatches)
  }

  ghost predicate PatternFits(patterns: seq<seq<Hit>>, i: nat, maxMatches: nat)
    requires i < |patterns|
  {
    |ValidHits(patterns[i])| <= 1 || |AllValidHits(patterns[..i])| + |ValidHits(patterns[i])| <= maxMatches
  }

  lemma UncutOneMore(patterns: seq<seq<Hit>>, i: nat, maxMatches: nat)
    requires i < |patterns|
    ensures Uncut(patterns[..i + 1], maxMatches) <==>
        Uncut(patterns[..i], maxMatches) && PatternFits(patterns, i, maxMatches)
    ensures AllValidHits(patterns[..i + 1]) == AllValidHits(patterns[..i]) + ValidHits(patterns[i])
  {
    var longer, shorter := patterns[..i + 1], patterns[..i];
    assert longer[..i] == shorter && longer[i] == patterns[i];
    assert PatternFits(longer, i, maxMatches) <==> PatternFits(patterns, i, maxMatches);
    forall j | 0 <= j < i ensures PatternFits(longer, j, maxMatches) <==> PatternFits(shorter, j, maxMatches) {
      assert longer[..j] == shorter[..j] && longer[j] == shorter[j];
    }
  }

  /** All of one pattern's valid hits, until the list has reached the limit. */
  method CollectFrom(found: seq<Match>, hits: seq<Hit>, maxMatches: nat) returns (more: seq<Match>)
    ensures found <= more && |more| <= (if |found| >= maxMatches then |found| + 1 else maxMatches)
    ensures more == found + ValidHits(hits) <==> |ValidHits(hits)| <= 1 || |found| + |ValidHits(hits)| <= maxMatches
    ensures more[|found|..] <= ValidHits(hits)
    ensures |more| > |found| || ValidHits(hits) == []
  {
    more := found;
    var i := 0;
    while i < |hits|
      invariant i <= |hits| && more == found + ValidHits(hits[..i])
      invariant more == found || |more| < maxMatches
    {
      assert hits[..i + 1][..i] == hits[..i];
      HitsSoFar(hits, i + 1);
      var h := hits[i];
      i := i + 1;
      if h.valid && h.hit.start < h.hit.end {
        more := more + [h.hit];
        if |more| >= maxMatches { break; }
      }
    }
    assert hits[..|hits|] == hits;
  }

  lemma {:induction false} HitsSoFar(hits: seq<Hit>, i: nat)
    requires i <= |hits|
    ensures ValidHits(hits[..i]) <= ValidHits(hits)
  {
    if i == |hits| {
      assert hits[..i] == hits;
    } else {
      assert hits[..|hits| - 1][..i] == hits[..i];
      HitsSoFar(hits[..|hits| - 1], i);
    }
  }

  /** Every pattern contributes at least its first valid hit, even beyond the limit; nothing is left out
      exactly when no pattern's loop is cut short. */
  method CollectHits(patterns: seq<seq<Hit>>, maxMatches: nat) returns (found: seq<Match>)
    ensures |found| <= maxMatches + |patterns|
    ensures found == AllValidHits(patterns) <==> Uncut(patterns, maxMatches)
    ensures |AllValidHits(patterns)| <= maxMatches ==> found == AllValidHits(patterns)
    ensures forall m :: m in found ==> m in AllValidHits(patterns)
    ensures forall i :: 0 <= i < |patterns| && ValidHits(patterns[i]) != [] ==> ValidHits(patterns[i])[0] in found
  {
    found := [];
    for i := 0 to |patterns|
      invariant |found| <= maxMatches + i
      invariant Collected(patterns, i, maxMatches, found)
    {
      var more := CollectFrom(found, patterns[i], maxMatches);
      CollectedOneMore(patterns, i, maxMatches, found, more);
      found := more;
    }
    assert patterns[..|patterns|] == patterns;
    if |AllValidHits(patterns)| <= maxMatches { FewAreUncut(patterns, maxMatches, |patterns|); }
  }

  /** The list after i patterns. */
  ghost predicate Collected(patterns: seq<seq<Hit>>, i: nat, maxMatches: nat, found: seq<Match>)
    requires i <= |patterns|
  {
    var all := AllValidHits(patterns[..i]);
    && |found| <= |all| && (|found| == |all| ==> found == all) && (found == all <==> Uncut(patterns[..i], maxMatches))
    && (forall m :: m in found ==> m in all)
    && (forall j :: 0 <= j < i && ValidHits(patterns[j]) != [] ==> ValidHits(patterns[j])[0] in found)
  }

  lemma CollectedOneMore(patterns: seq<seq<Hit>>, i: nat, maxMatches: nat, found: seq<Match>, more: seq<Match>)
    requires i < |patterns| && Collected(patterns, i, maxMatches, found)
    requires found <= more && more[|found|..] <= ValidHits(patterns[i]) &&
        (|more| > |found| || ValidHits(patterns[i]) == [])
    requires var hits := ValidHits(patterns[i]); more == found + hits <==> |hits| <= 1 || |found| + |hits| <= maxMatches
    ensures Collected(patterns, i + 1, maxMatches, more)
  {
    var all, hits, rest := AllValidHits(patterns[..i]), ValidHits(patterns[i]), more[|found|..];
    UncutOneMore(patterns, i, maxMatches);
    assert more == found + rest && rest == hits[..|rest|];
    if |more| == |all| + |hits| { assert rest == hits; }
    if |more| > |found| { assert rest[0] == hits[0] && rest[0] in more; }
    assert forall m :: m in rest ==> m in hits;
  }

  /** Within the limit nothing can be cut. */
  lemma {:induction false} FewAreUncut(patterns: seq<seq<Hit>>, maxMatches: nat, i: nat)
    requires i <= |patterns| && |AllValidHits(patterns[..i])| <= maxMatches
    ensures Uncut(patterns[..i], maxMatches)
  {
    if i > 0 {
      UncutOneMore(patterns, i - 1, maxMatches);
      FewAreUncut(patterns, maxMatches, i - 1);
    }
  }

  /** The limit can be exceeded: two patterns with one hit each, and a limit of one. */
  method LimitIsExceeded(h: Hit) returns (found: seq<Match>)
    requires h.valid && h.hit.start < h.hit.end
    ensures found == [h.hit, h.hit] && |found| > 1
  {
    found := CollectHits([[h], [h]], 1);
    assert [h][..0] == [] && [[h], [h]][..1] == [[h]] && [[h]][..0] == [];
    assert ValidHits([h]) == [h.hit] && AllValidHits([[h]]) == [h.hit];
  }
}
