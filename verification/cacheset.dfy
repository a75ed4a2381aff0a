/**
 * One cache set of csim.c: E lines, each with a valid bit, a tag and the
 * time of its last use. This module states, as functions, what
 * `search_update` does to the set the address decodes to: the three scans
 * (hit, first invalid line, least recently used line) and the resulting set.
 */
module CacheSet {

  /** `line_t`: `valid`, `tag`, `time`. The time of an invalid line is whatever memory held. */
  datatype Line = Line(valid: bool, tag: nat, time: int)

  datatype Option<T> = None | Some(value: T)

  /** The three results of `search_update`. */
  datatype Outcome = Hit | MissFill | MissEvict {
    /** The integer `search_update` returns. */
    function Code(): (code: int)
      ensures 1 <= code <= 3
    {
      match this
      case Hit => 1
      case MissFill => 2
      case MissEvict => 3
    }
  }

  predicate Holds(line: Line, tag: nat) {
    line.valid && line.tag == tag
  }

  /**
   * The first line at index `from` or later that is valid and carries `tag`
   * (the hit scan, csim.c:66-74).
   */
  function FindTag(lines: seq<Line>, tag: nat, from: nat): (r: Option<nat>)
    requires from <= |lines|
    ensures r.Some? ==> from <= r.value < |lines| && Holds(lines[r.value], tag)
                        && forall j :: from <= j < r.value ==> !Holds(lines[j], tag)
    ensures r.None? <==> forall j :: from <= j < |lines| ==> !Holds(lines[j], tag)
    decreases |lines| - from
  {
    if from == |lines| then None
    else if Holds(lines[from], tag) then Some(from)
    else FindTag(lines, tag, from + 1)
  }

  /** The first invalid line at index `from` or later (the fill scan, csim.c:77-86). */
  function FindInvalid(lines: seq<Line>, from: nat): (r: Option<nat>)
    requires from <= |lines|
    ensures r.Some? ==> from <= r.value < |lines| && !lines[r.value].valid
                        && forall j :: from <= j < r.value ==> lines[j].valid
    ensures r.None? <==> forall j :: from <= j < |lines| ==> lines[j].valid
    decreases |lines| - from
  {
    if from == |lines| then None
    else if !lines[from].valid then Some(from)
    else FindInvalid(lines, from + 1)
  }

  /** Index `v` holds the smallest time, and every earlier line a strictly larger one. */
  predicate IsLruVictim(lines: seq<Line>, v: nat) {
    v < |lines|
    && (forall j :: 0 <= j < |lines| ==> lines[v].time <= lines[j].time)
    && (forall j :: 0 <= j < v ==> lines[v].time < lines[j].time)
  }

  /**
   * The victim scan (csim.c:89-98): continue from index `i` with `best`, the
   * line of least time among the first `i`; a line replaces it only when its
   * time is strictly smaller.
   */
  function LruScan(lines: seq<Line>, i: nat, best: nat): (v: nat)
    requires best < i <= |lines|
    requires forall j :: 0 <= j < i ==> lines[best].time <= lines[j].time
    requires forall j :: 0 <= j < best ==> lines[best].time < lines[j].time
    ensures IsLruVictim(lines, v)
    decreases |lines| - i
  {
    if i == |lines| then best
    else if lines[i].time < lines[best].time then LruScan(lines, i + 1, i)
    else LruScan(lines, i + 1, best)
  }

  /** The line `search_update` evicts from a full set. */
  function LruVictim(lines: seq<Line>): (v: nat)
    requires |lines| > 0
    ensures IsLruVictim(lines, v)
  {
    LruScan(lines, 1, 0)
  }

  /** The victim is determined: one index alone has the least time and no earlier tie. */
  lemma LruVictimUnique(lines: seq<Line>, v: nat, w: nat)
    requires IsLruVictim(lines, v) && IsLruVictim(lines, w)
    ensures v == w
  {
    assert lines[v].time == lines[w].time;
  }

  /**
   * What one access does to its set at clock `now`: the outcome, and the set
   * afterwards (csim.c:64-101).
   */
  function AccessLines(lines: seq<Line>, tag: nat, now: nat): (r: (Outcome, seq<Line>))
    requires |lines| > 0
    ensures |r.1| == |lines|
  {
    match FindTag(lines, tag, 0)
    case Some(i) => (Hit, lines[i := lines[i].(time := now)])
    case None =>
      match FindInvalid(lines, 0)
      case Some(i) => (MissFill, lines[i := Line(true, tag, now)])
      case None =>
        var v := LruVictim(lines);
        (MissEvict, lines[v := lines[v].(tag := tag, time := now)])
  }

  // ---------------------------------------------------------------------
  // The three cases of an access, each stated without the scan functions.
  // ---------------------------------------------------------------------

  /**
   * Hit: some valid line holds the tag. The outcome is Hit and only that
   * line's time changes, to `now`.
   */
  lemma AccessHit(lines: seq<Line>, tag: nat, now: nat, i: nat)
    requires |lines| > 0 && NoDuplicateTags(lines)
    requires i < |lines| && Holds(lines[i], tag)
    ensures AccessLines(lines, tag, now) == (Hit, lines[i := Line(true, tag, now)])
  {
    var f := FindTag(lines, tag, 0);
    assert f.Some?;
    assert f.value == i;
  }

  /**
   * Fill: no valid line holds the tag and some line is invalid. The outcome
   * is MissFill and the lowest invalid line becomes valid with the tag at `now`.
   */
  lemma AccessFill(lines: seq<Line>, tag: nat, now: nat, i: nat)
    requires |lines| > 0
    requires forall j :: 0 <= j < |lines| ==> !Holds(lines[j], tag)
    requires i < |lines| && !lines[i].valid && forall j :: 0 <= j < i ==> lines[j].valid
    ensures AccessLines(lines, tag, now) == (MissFill, lines[i := Line(true, tag, now)])
  {
    var f := FindInvalid(lines, 0);
    assert f.Some?;
    assert f.value == i;
  }

  /**
   * Evict: no valid line holds the tag and every line is valid. The outcome is
   * MissEvict and the victim is the lowest-indexed line of least time, which
   * gets the tag and time `now` and stays valid.
   */
  lemma AccessEvict(lines: seq<Line>, tag: nat, now: nat, v: nat)
    requires |lines| > 0
    requires forall j :: 0 <= j < |lines| ==> !Holds(lines[j], tag)
    requires forall j :: 0 <= j < |lines| ==> lines[j].valid
    requires IsLruVictim(lines, v)
    ensures AccessLines(lines, tag, now) == (MissEvict, lines[v := Line(true, tag, now)])
  {
    LruVictimUnique(lines, v, LruVictim(lines));
  }

  // ---------------------------------------------------------------------
  // The invariant of a set and what one access keeps of it.
  // ---------------------------------------------------------------------

  /** No two valid lines of a set carry the same tag. */
  predicate NoDuplicateTags(lines: seq<Line>) {
    forall i, j :: 0 <= i < |lines| && 0 <= j < |lines| && i != j && Holds(lines[i], lines[j].tag)
      ==> !lines[j].valid
  }

  /** Valid lines were used before `now`, each at a different time. */
  predicate TimesBefore(lines: seq<Line>, now: nat) {
    (forall i :: 0 <= i < |lines| && lines[i].valid ==> 0 <= lines[i].time < now)
    && (forall i, j :: 0 <= i < |lines| && 0 <= j < |lines| && i != j && lines[i].valid && lines[j].valid
          ==> lines[i].time != lines[j].time)
  }

  predicate SetInvariant(lines: seq<Line>, now: nat) {
    NoDuplicateTags(lines) && TimesBefore(lines, now)
  }

  /**
   * An access rewrites exactly one line of the set, and that line then
   * holds the tag.
   */
  lemma AccessWritesOneLine(lines: seq<Line>, tag: nat, now: nat)
    requires |lines| > 0
    ensures exists k :: 0 <= k < |lines| && Holds(AccessLines(lines, tag, now).1[k], tag)
                        && AccessLines(lines, tag, now).1 == lines[k := AccessLines(lines, tag, now).1[k]]
  {
    var r := AccessLines(lines, tag, now).1;
    match FindTag(lines, tag, 0)
    case Some(i) =>
      assert r == lines[i := r[i]] && Holds(r[i], tag);
    case None =>
      match FindInvalid(lines, 0)
      case Some(i) =>
        assert r == lines[i := r[i]] && Holds(r[i], tag);
      case None =>
        var v := LruVictim(lines);
        assert r == lines[v := r[v]] && Holds(r[v], tag);
  }

  /** An access keeps the set invariant, with the clock one step on. */
  lemma AccessKeepsSetInvariant(lines: seq<Line>, tag: nat, now: nat)
    requires |lines| > 0 && SetInvariant(lines, now)
    ensures SetInvariant(AccessLines(lines, tag, now).1, now + 1)
  {
    var r := AccessLines(lines, tag, now).1;
    match FindTag(lines, tag, 0)
    case Some(i) =>
      assert r == lines[i := lines[i].(time := now)];
    case None =>
      match FindInvalid(lines, 0)
      case Some(i) =>
        assert r == lines[i := Line(true, tag, now)];
      case None =>
        var v := LruVictim(lines);
        assert r == lines[v := lines[v].(tag := tag, time := now)];
  }

  /** A second access to the same tag right after the first one hits. */
  lemma AccessThenHit(lines: seq<Line>, tag: nat, now: nat)
    requires |lines| > 0
    ensures AccessLines(AccessLines(lines, tag, now).1, tag, now + 1).0 == Hit
  {
    AccessWritesOneLine(lines, tag, now);
    var r := AccessLines(lines, tag, now).1;
    var k :| 0 <= k < |lines| && Holds(r[k], tag);
    assert FindTag(r, tag, 0).Some?;
  }

  /**
   * On a full set that keeps the invariant, the line an eviction replaces was
   * used strictly longer ago than every other line, and the other lines stay
   * as they were: the set keeps its E most recently used tags.
   */
  lemma EvictionTakesOldest(lines: seq<Line>, tag: nat, now: nat)
    requires |lines| > 0 && SetInvariant(lines, now)
    requires AccessLines(lines, tag, now).0 == MissEvict
    ensures var v := LruVictim(lines);
      && (forall j :: 0 <= j < |lines| && j != v ==> lines[v].time < lines[j].time)
      && (forall j :: 0 <= j < |lines| && j != v ==> AccessLines(lines, tag, now).1[j] == lines[j])
  {
    assert FindInvalid(lines, 0).None?;
  }

  /**
   * Two lines, both invalid at first; tags a, b, a, c with c unlike a and b
   * at clocks 0..3. The first two accesses fill, the third hits, and the
   * fourth evicts b, the least recently used, and keeps a.
   */
  lemma LruScenario(line0: Line, line1: Line, a: nat, b: nat, c: nat)
    requires !line0.valid && !line1.valid && a != b && c != a && c != b
    ensures var r1 := AccessLines([line0, line1], a, 0);
      var r2 := AccessLines(r1.1, b, 1);
      var r3 := AccessLines(r2.1, a, 2);
      var r4 := AccessLines(r3.1, c, 3);
      && r1.0 == MissFill && r2.0 == MissFill && r3.0 == Hit && r4.0 == MissEvict
      && r4.1 == [Line(true, a, 2), Line(true, c, 3)]
  {
    var s0 := [line0, line1];
    AccessFill(s0, a, 0, 0);
    var s1 := [Line(true, a, 0), line1];
    assert s0[0 := Line(true, a, 0)] == s1;
    AccessFill(s1, b, 1, 1);
    var s2 := [Line(true, a, 0), Line(true, b, 1)];
    assert s1[1 := Line(true, b, 1)] == s2;
    AccessHit(s2, a, 2, 0);
    var s3 := [Line(true, a, 2), Line(true, b, 1)];
    assert s2[0 := Line(true, a, 2)] == s3;
    assert IsLruVictim(s3, 1);
    AccessEvict(s3, c, 3, 1);
    assert s3[1 := Line(true, c, 3)] == [Line(true, a, 2), Line(true, c, 3)];
  }
}
