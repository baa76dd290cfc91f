// build.py's captions: checked and mapped to assembled time, then printed as SRT and ASS time stamps.
module Captions {
  import opened Text
  import opened Str
  import opened Numbers
  import opened Timeline

  datatype Caption = Caption(from: string, fromShift: real, to: string, toShift: real, text: string)

  datatype Cue = Cue(start: real, end: real, text: string)

  const EPSILON := 0.000001

  predicate IsAnchor(ref: string) { HasPrefix(ref, "@") }

  // T: a scene's start plus seconds, or a marker's recorded time plus seconds, mapped through the cut's clips. None
  // when the scene or the marker is unknown, or the point falls outside every clip.
  function T(start: map<string, real>, ps: seq<Piece>, marks: map<string, real>, ref: string, d: real,
             isEnd: bool): Option<real>
    requires Playable(ps)
  {
    if !IsAnchor(ref) then if ref in start then Some(start[ref] + d) else None
    else
      var name := ref[1..];
      if name !in marks then None else Locate(ps, Split(name, '.')[0], marks[name] + d, isEnd)
  }

  // The offset of a scene reference does not run past the scene.
  predicate OffsetFits(dur: map<string, real>, ref: string, d: real) {
    IsAnchor(ref) || (ref in dur && d <= dur[ref] + 0.05)
  }

  // One caption, checked; None when an assertion fails.
  function CueOf(start: map<string, real>, dur: map<string, real>, ps: seq<Piece>, marks: map<string, real>,
                 c: Caption, prevEnd: real, maxCps: real): Option<Cue>
    requires Playable(ps)
  {
    var a, b := T(start, ps, marks, c.from, c.fromShift, false), T(start, ps, marks, c.to, c.toShift, true);
    if a.None? || b.None? then None
    else if !(b.value > a.value) then None
    else if !OffsetFits(dur, c.from, c.fromShift) || !OffsetFits(dur, c.to, c.toShift) then None
    else if !(a.value >= prevEnd - EPSILON) then None
    else if !(|c.text| as real / (b.value - a.value) <= maxCps) then None
    else Some(Cue(a.value, b.value, c.text))
  }

  // A list of cues that the loop's assertions let through.
  ghost predicate Accepted(cues: seq<Cue>, maxCps: real) {
    && (forall i :: 0 <= i < |cues| ==> Paced(cues[i], maxCps))
    && (forall i :: 0 < i < |cues| ==> cues[i].start >= cues[i - 1].end - EPSILON)
    && (cues != [] ==> cues[0].start >= -EPSILON)
  }

  ghost predicate Paced(c: Cue, maxCps: real) { c.end > c.start && |c.text| as real / (c.end - c.start) <= maxCps }

  function LastEndOf(cues: seq<Cue>): real { if cues == [] then 0.0 else cues[|cues| - 1].end }

  // The cues of the first n captions, each checked against the one before it.
  function Cues(start: map<string, real>, dur: map<string, real>, ps: seq<Piece>, marks: map<string, real>,
                captions: seq<Caption>, maxCps: real, n: nat): Option<seq<Cue>>
    requires Playable(ps) && n <= |captions|
  {
    if n == 0 then Some([])
    else
      var before := Cues(start, dur, ps, marks, captions, maxCps, n - 1);
      if before.None? then None
      else
        var cue := CueOf(start, dur, ps, marks, captions[n - 1], LastEndOf(before.value), maxCps);
        if cue.None? then None else Some(before.value + [cue.value])
  }

  // ---------- what the five assertions ask, over the times of a caption ----------

  // The caption's two times, each a scene's start plus seconds or where a marker's second is shown.
  ghost predicate HasTimes(start: map<string, real>, ps: seq<Piece>, marks: map<string, real>, c: Caption)
    requires Playable(ps)
  {
    T(start, ps, marks, c.from, c.fromShift, false).Some? && T(start, ps, marks, c.to, c.toShift, true).Some?
  }

  ghost function From(start: map<string, real>, ps: seq<Piece>, marks: map<string, real>, c: Caption): real
    requires Playable(ps) && HasTimes(start, ps, marks, c)
  { T(start, ps, marks, c.from, c.fromShift, false).value }

  ghost function Till(start: map<string, real>, ps: seq<Piece>, marks: map<string, real>, c: Caption): real
    requires Playable(ps) && HasTimes(start, ps, marks, c)
  { T(start, ps, marks, c.to, c.toShift, true).value }

  ghost predicate IsScene(ref: string) { ref == "" || ref[0] != '@' }

  // A scene reference ends its offset within the scene, give or take a twentieth of a second.
  ghost predicate WithinScene(dur: map<string, real>, ref: string, d: real) {
    IsScene(ref) ==> ref in dur && d - dur[ref] <= 0.05
  }

  // One caption meets the assertions, after one that ended at prev.
  ghost predicate Meets(start: map<string, real>, dur: map<string, real>, ps: seq<Piece>, marks: map<string, real>,
                        c: Caption, prev: real, maxCps: real)
    requires Playable(ps)
  {
    && HasTimes(start, ps, marks, c)
    && var a, b := From(start, ps, marks, c), Till(start, ps, marks, c);
       && a < b
       && WithinScene(dur, c.from, c.fromShift) && WithinScene(dur, c.to, c.toShift)
       && prev - a <= 0.000001
       && |c.text| as real <= maxCps * (b - a)
  }

  // Every one of the first n does, each after the one before it.
  ghost predicate AllMeet(start: map<string, real>, dur: map<string, real>, ps: seq<Piece>, marks: map<string, real>,
                          captions: seq<Caption>, maxCps: real, n: nat)
    requires Playable(ps) && n <= |captions|
  {
    forall i :: 0 <= i < n ==> MeetsAt(start, dur, ps, marks, captions, maxCps, i)
  }

  ghost predicate MeetsAt(start: map<string, real>, dur: map<string, real>, ps: seq<Piece>, marks: map<string, real>,
                          captions: seq<Caption>, maxCps: real, i: nat)
    requires Playable(ps) && i < |captions|
  {
    && (i > 0 ==> HasTimes(start, ps, marks, captions[i - 1]))
    && Meets(start, dur, ps, marks, captions[i],
             if i == 0 then 0.0 else Till(start, ps, marks, captions[i - 1]), maxCps)
  }

  lemma Quotient(n: real, d: real, q: real)
    requires d > 0.0
    ensures n / d <= q <==> n <= q * d
  {
    var r := n / d;
    assert r * d == n;
  }

  lemma CueIff(start: map<string, real>, dur: map<string, real>, ps: seq<Piece>, marks: map<string, real>,
               c: Caption, prev: real, maxCps: real)
    requires Playable(ps)
    ensures CueOf(start, dur, ps, marks, c, prev, maxCps).Some? <==> Meets(start, dur, ps, marks, c, prev, maxCps)
    ensures Meets(start, dur, ps, marks, c, prev, maxCps)
            ==> CueOf(start, dur, ps, marks, c, prev, maxCps)
                == Some(Cue(From(start, ps, marks, c), Till(start, ps, marks, c), c.text))
  {
    if HasTimes(start, ps, marks, c) && From(start, ps, marks, c) < Till(start, ps, marks, c) {
      Quotient(|c.text| as real, Till(start, ps, marks, c) - From(start, ps, marks, c), maxCps);
    }
  }

  // The cue of each caption runs from its first time to its second and carries its text.
  ghost predicate CuesAre(start: map<string, real>, ps: seq<Piece>, marks: map<string, real>, captions: seq<Caption>,
                          cues: seq<Cue>)
    requires Playable(ps)
  {
    |cues| <= |captions| && forall i :: 0 <= i < |cues| ==> CueIs(start, ps, marks, captions[i], cues[i])
  }

  ghost predicate CueIs(start: map<string, real>, ps: seq<Piece>, marks: map<string, real>, c: Caption, cue: Cue)
    requires Playable(ps)
  {
    HasTimes(start, ps, marks, c) && cue == Cue(From(start, ps, marks, c), Till(start, ps, marks, c), c.text)
  }

  lemma {:induction false} AllMeetStep(start: map<string, real>, dur: map<string, real>, ps: seq<Piece>,
                                       marks: map<string, real>, captions: seq<Caption>, maxCps: real, n: nat)
    requires Playable(ps) && n < |captions|
    ensures AllMeet(start, dur, ps, marks, captions, maxCps, n + 1)
            <==> AllMeet(start, dur, ps, marks, captions, maxCps, n)
                 && MeetsAt(start, dur, ps, marks, captions, maxCps, n)
  {
    if AllMeet(start, dur, ps, marks, captions, maxCps, n + 1) {
      assert MeetsAt(start, dur, ps, marks, captions, maxCps, n);
    }
  }

  // The cues so far say when the last caption ended.
  lemma {:induction false} LastEndIs(start: map<string, real>, ps: seq<Piece>, marks: map<string, real>,
                                     captions: seq<Caption>, cues: seq<Cue>)
    requires Playable(ps) && CuesAre(start, ps, marks, captions, cues)
    ensures cues != [] ==> HasTimes(start, ps, marks, captions[|cues| - 1])
                           && LastEndOf(cues) == Till(start, ps, marks, captions[|cues| - 1])
  {
    if cues != [] {
      assert CueIs(start, ps, marks, captions[|cues| - 1], cues[|cues| - 1]);
    }
  }

  lemma {:induction false} CuesAreStep(start: map<string, real>, ps: seq<Piece>, marks: map<string, real>,
                                       captions: seq<Caption>, cues: seq<Cue>, cue: Cue)
    requires Playable(ps) && |cues| < |captions| && CuesAre(start, ps, marks, captions, cues)
    requires CueIs(start, ps, marks, captions[|cues|], cue)
    ensures CuesAre(start, ps, marks, captions, cues + [cue])
  {}

  // The outcome for the first n captions: accepted if and only if each meets the assertions, with their cues.
  ghost predicate Fits(start: map<string, real>, dur: map<string, real>, ps: seq<Piece>, marks: map<string, real>,
                       captions: seq<Caption>, maxCps: real, n: nat, cues: Option<seq<Cue>>)
    requires Playable(ps) && n <= |captions|
  {
    && (cues.Some? <==> AllMeet(start, dur, ps, marks, captions, maxCps, n))
    && (cues.Some? ==> |cues.value| == n && CuesAre(start, ps, marks, captions, cues.value))
  }

  lemma {:induction false} CuesIff(start: map<string, real>, dur: map<string, real>, ps: seq<Piece>,
                                   marks: map<string, real>, captions: seq<Caption>, maxCps: real, n: nat)
    requires Playable(ps) && n <= |captions|
    ensures Fits(start, dur, ps, marks, captions, maxCps, n, Cues(start, dur, ps, marks, captions, maxCps, n))
  {
    if n == 0 {
    } else {
      CuesIff(start, dur, ps, marks, captions, maxCps, n - 1);
      NextFits(start, dur, ps, marks, captions, maxCps, n - 1,
               Cues(start, dur, ps, marks, captions, maxCps, n - 1), Cues(start, dur, ps, marks, captions, maxCps, n));
    }
  }

  lemma {:induction false} NextFits(start: map<string, real>, dur: map<string, real>, ps: seq<Piece>,
                                    marks: map<string, real>, captions: seq<Caption>, maxCps: real, n: nat,
                                    before: Option<seq<Cue>>, after: Option<seq<Cue>>)
    requires Playable(ps) && n < |captions| && Fits(start, dur, ps, marks, captions, maxCps, n, before)
    requires after == if before.None? then None
                      else var cue := CueOf(start, dur, ps, marks, captions[n], LastEndOf(before.value), maxCps);
                           if cue.None? then None else Some(before.value + [cue.value])
    ensures Fits(start, dur, ps, marks, captions, maxCps, n + 1, after)
  {
    AllMeetStep(start, dur, ps, marks, captions, maxCps, n);
    if before.Some? {
      NextCueIff(start, dur, ps, marks, captions, before.value, maxCps);
    }
  }

  lemma {:induction false} NextCueIff(start: map<string, real>, dur: map<string, real>, ps: seq<Piece>,
                                      marks: map<string, real>, captions: seq<Caption>, cues: seq<Cue>, maxCps: real)
    requires Playable(ps) && |cues| < |captions| && CuesAre(start, ps, marks, captions, cues)
    ensures var cue := CueOf(start, dur, ps, marks, captions[|cues|], LastEndOf(cues), maxCps);
            && (cue.Some? <==> MeetsAt(start, dur, ps, marks, captions, maxCps, |cues|))
            && (cue.Some? ==> CuesAre(start, ps, marks, captions, cues + [cue.value]))
  {
    LastEndIs(start, ps, marks, captions, cues);
    CueIff(start, dur, ps, marks, captions[|cues|], LastEndOf(cues), maxCps);
    var cue := CueOf(start, dur, ps, marks, captions[|cues|], LastEndOf(cues), maxCps);
    if cue.Some? {
      CuesAreStep(start, ps, marks, captions, cues, cue.value);
    }
  }

  // ---------- which times those are ----------

  // A scene reference counts from where the scenes before it end.
  lemma SceneTime(scenes: seq<Scene>, probes: seq<real>, start: map<string, real>, dur: map<string, real>,
                  ps: seq<Piece>, marks: map<string, real>, n: nat, d: real, isEnd: bool)
    requires n < |scenes| == |probes| && Playable(ps) && Records(start, dur, scenes, probes, |scenes|)
    requires IsScene(scenes[n].name)
    ensures T(start, ps, marks, scenes[n].name, d, isEnd) == Some(SumOf(probes[..n]) + d)
    ensures dur[scenes[n].name] == probes[n]
  {
    assert |"@"| == 1 && "@"[0] == '@';
  }

  // A caption between two scenes is accepted, and shown, by the times of its scenes and their lengths.
  lemma {:induction false} SceneCaption(start: map<string, real>, dur: map<string, real>, ps: seq<Piece>,
                                        marks: map<string, real>, c: Caption, a: real, b: real, prev: real,
                                        maxCps: real)
    requires Playable(ps) && IsScene(c.from) && IsScene(c.to) && c.from in dur && c.to in dur
    requires T(start, ps, marks, c.from, c.fromShift, false) == Some(a)
    requires T(start, ps, marks, c.to, c.toShift, true) == Some(b)
    ensures CueOf(start, dur, ps, marks, c, prev, maxCps)
            == if a < b && c.fromShift <= dur[c.from] + 0.05 && c.toShift <= dur[c.to] + 0.05
                  && prev - a <= 0.000001 && |c.text| as real <= maxCps * (b - a)
               then Some(Cue(a, b, c.text)) else None
  {
    CueIff(start, dur, ps, marks, c, prev, maxCps);
  }

  // A marker reference, when it has a time, has the one at which that second of its recording is shown.
  lemma MarkerTime(start: map<string, real>, ps: seq<Piece>, marks: map<string, real>, t0: real, at: real, cut: string,
                   rest: string, d: real, isEnd: bool)
    requires Playable(ps) && InOrder(ps, t0) && Tiles(ps, cut, at) && '.' !in cut
    ensures var name := cut + ['.'] + rest;
            var t := T(start, ps, marks, ['@'] + name, d, isEnd);
            && (t.Some? <==> name in marks
                             && if isEnd then at < marks[name] + d <= EndOf(ps, cut, at)
                                else at <= marks[name] + d < EndOf(ps, cut, at))
            && (t.Some? ==> ShownAt(ps, t.value, isEnd) == Some((cut, marks[name] + d)))
  {
    var name := cut + ['.'] + rest;
    var ref := ['@'] + name;
    assert |"@"| == 1 && "@"[0] == '@' && ref[1..] == name;
    SplitAtSeparator(cut, '.', rest);
    SplitOfPlain(cut, '.');
    if name in marks {
      ExactlyOneClip(ps, cut, at, marks[name] + d, isEnd);
      if T(start, ps, marks, ref, d, isEnd).Some? {
        ShownAtLocated(ps, t0, cut, at, marks[name] + d, isEnd);
      }
    }
  }

  // ---------- the loop ----------

  method CheckCaptions(start: map<string, real>, dur: map<string, real>, ps: seq<Piece>, marks: map<string, real>,
                       captions: seq<Caption>, maxCps: real) returns (out: Option<seq<Cue>>)
    requires Playable(ps)
    ensures out == Cues(start, dur, ps, marks, captions, maxCps, |captions|)
    ensures out.Some? <==> AllMeet(start, dur, ps, marks, captions, maxCps, |captions|)
    ensures out.Some? ==> |out.value| == |captions| && CuesAre(start, ps, marks, captions, out.value)
  {
    var caps: seq<Cue> := [];
    var prevEnd := 0.0;
    for n := 0 to |captions|
      invariant Cues(start, dur, ps, marks, captions, maxCps, n) == Some(caps) && prevEnd == LastEndOf(caps)
    {
      var cue := CheckOne(start, dur, ps, marks, captions[n], prevEnd, maxCps);
      if cue.None? {
        FailedCaptionStops(start, dur, ps, marks, captions, maxCps, n + 1, |captions|);
        CuesIff(start, dur, ps, marks, captions, maxCps, |captions|);
        return None;
      }
      caps := caps + [cue.value];
      prevEnd := cue.value.end;
    }
    CuesIff(start, dur, ps, marks, captions, maxCps, |captions|);
    return Some(caps);
  }

  // One turn of the loop, with the assertions in the order they are made.
  method CheckOne(start: map<string, real>, dur: map<string, real>, ps: seq<Piece>, marks: map<string, real>,
                  c: Caption, prevEnd: real, maxCps: real) returns (cue: Option<Cue>)
    requires Playable(ps)
    ensures cue == CueOf(start, dur, ps, marks, c, prevEnd, maxCps)
  {
    var a, b := T(start, ps, marks, c.from, c.fromShift, false), T(start, ps, marks, c.to, c.toShift, true);
    if a.None? || b.None? { return None; }
    if !(b.value > a.value) { return None; }
    if !OffsetFits(dur, c.from, c.fromShift) || !OffsetFits(dur, c.to, c.toShift) { return None; }
    if !(a.value >= prevEnd - EPSILON) { return None; }
    if !(|c.text| as real / (b.value - a.value) <= maxCps) { return None; }
    return Some(Cue(a.value, b.value, c.text));
  }

  lemma {:induction false} FailedCaptionStops(start: map<string, real>, dur: map<string, real>, ps: seq<Piece>,
                                              marks: map<string, real>, captions: seq<Caption>, maxCps: real, n: nat,
                                              m: nat)
    requires Playable(ps) && n <= m <= |captions| && Cues(start, dur, ps, marks, captions, maxCps, n).None?
    ensures Cues(start, dur, ps, marks, captions, maxCps, m).None?
  {
    if n < m {
      FailedCaptionStops(start, dur, ps, marks, captions, maxCps, n, m - 1);
    }
  }

  // What the assertions leave: cues with a positive length, no faster than allowed, each in order with the last one.
  lemma {:induction false} CuesAreAccepted(start: map<string, real>, dur: map<string, real>, ps: seq<Piece>,
                                           marks: map<string, real>, captions: seq<Caption>, maxCps: real, n: nat)
    requires Playable(ps) && n <= |captions| && Cues(start, dur, ps, marks, captions, maxCps, n).Some?
    ensures var cues := Cues(start, dur, ps, marks, captions, maxCps, n).value;
            && |cues| == n && Accepted(cues, maxCps)
            && forall i :: 0 <= i < n ==> cues[i].text == captions[i].text
  {
    if n == 0 {
    } else {
      CuesAreAccepted(start, dur, ps, marks, captions, maxCps, n - 1);
      var before := Cues(start, dur, ps, marks, captions, maxCps, n - 1).value;
      var cue := CueOf(start, dur, ps, marks, captions[n - 1], LastEndOf(before), maxCps).value;
      AcceptedNext(before, cue, maxCps);
    }
  }

  lemma AcceptedNext(cues: seq<Cue>, cue: Cue, maxCps: real)
    requires Accepted(cues, maxCps) && Paced(cue, maxCps) && cue.start >= LastEndOf(cues) - EPSILON
    ensures Accepted(cues + [cue], maxCps)
  {}

  // With exact scene lengths and a table that chains the recording, a caption between two of its markers never fails
  // the length assertion when its end point is recorded after its start point.
  lemma AnchoredCaptionHasLength(scenes: seq<Scene>, probes: seq<real>, marks: map<string, real>,
                                 start: map<string, real>, c: Caption)
    requires ExactProbes(scenes, probes, marks)
    requires IsAnchor(c.from) && IsAnchor(c.to) && c.from[1..] in marks && c.to[1..] in marks
    requires Split(c.from[1..], '.')[0] == Split(c.to[1..], '.')[0] && Chained(scenes, Split(c.from[1..], '.')[0])
    requires marks[c.from[1..]] + c.fromShift < marks[c.to[1..]] + c.toShift
    ensures var ps := Pieces(scenes, probes, marks);
            && Playable(ps)
            && var a, b := T(start, ps, marks, c.from, c.fromShift, false), T(start, ps, marks, c.to, c.toShift, true);
               a.Some? && b.Some? ==> a.value < b.value
  {
    var ps, cut := Pieces(scenes, probes, marks), Split(c.from[1..], '.')[0];
    PiecesInOrder(scenes, probes, marks);
    ChainedTableTiles(scenes, probes, marks, cut);
    var x, y := marks[c.from[1..]] + c.fromShift, marks[c.to[1..]] + c.toShift;
    if Locate(ps, cut, x, false).Some? && Locate(ps, cut, y, true).Some? {
      LocateIsMonotone(ps, 0.0, cut, 0.0, x, false, y, true);
    }
  }

  // The shipped table chains every recording, so there any two markers of one will do.
  lemma ShippedCaptionHasLength(probes: seq<real>, marks: map<string, real>, start: map<string, real>, c: Caption)
    requires ExactProbes(SCENES, probes, marks)
    requires IsAnchor(c.from) && IsAnchor(c.to) && c.from[1..] in marks && c.to[1..] in marks
    requires Split(c.from[1..], '.')[0] == Split(c.to[1..], '.')[0]
    requires marks[c.from[1..]] + c.fromShift < marks[c.to[1..]] + c.toShift
    ensures var ps := Pieces(SCENES, probes, marks);
            && Playable(ps)
            && var a, b := T(start, ps, marks, c.from, c.fromShift, false), T(start, ps, marks, c.to, c.toShift, true);
               a.Some? && b.Some? ==> a.value < b.value
  {
    ShippedIsChained(Split(c.from[1..], '.')[0]);
    AnchoredCaptionHasLength(SCENES, probes, marks, start, c);
  }

  // A non-empty caption lasts longer than the tolerance.
  lemma NonEmptyLasts(c: Cue, maxCps: real)
    requires Paced(c, maxCps) && c.text != "" && 0.0 < maxCps <= 1000000.0
    ensures c.end - c.start >= EPSILON
  {
    var d := c.end - c.start;
    var q := |c.text| as real / d;
    assert q * d >= 1.0;
    TimesLess(q, maxCps, d);
    TimesLess(maxCps, 1000000.0, d);
    assert q * d <= maxCps * d <= 1000000.0 * d;
  }

  // When every text is non-empty, no caption ends more than the tolerance after any later one starts, neighbour or not.
  lemma {:induction false} CuesStayOrdered(cues: seq<Cue>, maxCps: real, i: nat, j: nat)
    requires Accepted(cues, maxCps) && 0.0 < maxCps <= 1000000.0 && i < j < |cues|
    requires forall k :: 0 <= k < |cues| ==> cues[k].text != ""
    ensures cues[i].end <= cues[j].start + EPSILON
  {
    if i < j - 1 {
      CuesStayOrdered(cues, maxCps, i, j - 1);
      NonEmptyLasts(cues[j - 1], maxCps);
    }
  }

  // Empty texts let the overlaps add up, at most one tolerance a caption.
  lemma {:induction false} OverlapsAddUp(cues: seq<Cue>, maxCps: real, i: nat, j: nat)
    requires Accepted(cues, maxCps) && i < j < |cues|
    ensures cues[i].end <= cues[j].start + (j - i) as real * EPSILON
  {
    if i < j - 1 {
      OverlapsAddUp(cues, maxCps, i, j - 1);
    }
  }

  // No accepted cue starts before the tolerance below zero.
  lemma {:induction false} CuesStartAtZero(cues: seq<Cue>, maxCps: real, j: nat)
    requires Accepted(cues, maxCps) && j < |cues| && 0.0 < maxCps <= 1000000.0
    requires forall k :: 0 <= k < |cues| ==> cues[k].text != ""
    ensures cues[j].start >= -EPSILON && cues[j].end >= 0.0
  {
    NonEmptyLasts(cues[j], maxCps);
    if j == 0 {
    } else {
      CuesStartAtZero(cues, maxCps, j - 1);
    }
  }

  // ---------- rounding ----------

  // Python's round: to the nearest integer, ties to the even one.
  function Round(x: real): int {
    var f := x.Floor;
    var r := x - f as real;
    if r < 0.5 then f else if r > 0.5 then f + 1 else if f % 2 == 0 then f else f + 1
  }

  lemma RoundIsNearest(x: real)
    ensures -0.5 <= Round(x) as real - x <= 0.5
  {
  }

  // After rounding to milliseconds two cues overlap by at most 1 ms, after rounding to centiseconds by at most 1 cs.
  lemma RoundedCuesOverlapByOne(cues: seq<Cue>, maxCps: real, i: nat, j: nat)
    requires Accepted(cues, maxCps) && 0.0 < maxCps <= 1000000.0 && i < j < |cues|
    requires forall k :: 0 <= k < |cues| ==> cues[k].text != ""
    ensures Round(cues[i].end * 1000.0) <= Round(cues[j].start * 1000.0) + 1
    ensures Round(cues[i].end * 100.0) <= Round(cues[j].start * 100.0) + 1
    ensures Round(cues[i].start * 1000.0) >= 0 && Round(cues[i].start * 100.0) >= 0
  {
    CuesStayOrdered(cues, maxCps, i, j);
    CuesStartAtZero(cues, maxCps, i);
    RoundIsNearest(cues[i].end * 1000.0);
    RoundIsNearest(cues[j].start * 1000.0);
    RoundIsNearest(cues[i].end * 100.0);
    RoundIsNearest(cues[j].start * 100.0);
    RoundIsNearest(cues[i].start * 1000.0);
    RoundIsNearest(cues[i].start * 100.0);
  }

  // ---------- stamps ----------

  // %0wd for a number that is not negative.
  function Padded(n: nat, w: nat): string {
    var ds := Digits(n);
    Chars(Zeros(if |ds| < w then w - |ds| else 0) + ds)
  }

  function Zeros(n: nat): seq<digit> { if n == 0 then [] else [0] + Zeros(n - 1) }

  // Hours, minutes and seconds between colons, then the fraction after its mark.
  function Stamp(h: string, m: string, sec: string, mark: char, frac: string): string {
    h + [':'] + m + [':'] + sec + [mark] + frac
  }

  // stamp and ass_time, after rounding to n milliseconds or centiseconds.
  function SrtStamp(ms: nat): string {
    Stamp(Padded(ms / 3600000, 2), Padded(ms / 60000 % 60, 2), Padded(ms / 1000 % 60, 2), ',', Padded(ms % 1000, 3))
  }

  function AssStamp(cs: nat): string {
    Stamp(PrintNat(cs / 360000), Padded(cs / 6000 % 60, 2), Padded(cs / 100 % 60, 2), '.', Padded(cs % 100, 2))
  }

  // Reading a stamp back: hours, minutes and seconds between colons, then the fraction after the mark.
  function ReadStamp(s: string, mark: char, unit: nat): Option<int> {
    var parts := Split(s, ':');
    if |parts| != 3 then None
    else
      var last := Split(parts[2], mark);
      if |last| != 2 then None
      else
        var h, m, sec, frac := ReadNat(parts[0]), ReadNat(parts[1]), ReadNat(last[0]), ReadNat(last[1]);
        if h.None? || m.None? || sec.None? || frac.None? then None
        else Some(((h.value * 60 + m.value) * 60 + sec.value) * unit + frac.value)
  }

  lemma PadOne(z: seq<digit>, ds: seq<digit>)
    ensures ValueOf([0] + z + ds) == ValueOf(z + ds)
  {
    ValueOfPadded(z + ds);
    assert [0] + z + ds == [0] + (z + ds);
  }

  lemma {:induction false} ZerosAddNothing(n: nat, ds: seq<digit>)
    ensures ValueOf(Zeros(n) + ds) == ValueOf(ds)
  {
    if n == 0 {
      assert Zeros(0) + ds == ds;
    } else {
      ZerosAddNothing(n - 1, ds);
      PadOne(Zeros(n - 1), ds);
    }
  }

  lemma PaddedRoundTrip(n: nat, w: nat)
    ensures ReadNat(Padded(n, w)) == Some(n) && forall i :: 0 <= i < |Padded(n, w)| ==> DigitChar(Padded(n, w)[i])
  {
    var ds := Digits(n);
    var k := if |ds| < w then w - |ds| else 0;
    DigitsRoundTrip(Zeros(k) + ds);
    ZerosAddNothing(k, ds);
    ValueOfDigits(n);
  }

  lemma StampRoundTrip(h: string, m: string, s: string, frac: string, mark: char, unit: nat)
    requires AllDigits(h) && AllDigits(m) && AllDigits(s) && AllDigits(frac) && (mark == ',' || mark == '.')
    requires ReadNat(h).Some? && ReadNat(m).Some? && ReadNat(s).Some? && ReadNat(frac).Some?
    ensures ReadStamp(Stamp(h, m, s, mark, frac), mark, unit)
            == Some(((ReadNat(h).value * 60 + ReadNat(m).value) * 60 + ReadNat(s).value) * unit + ReadNat(frac).value)
  {
    StampSplits(h, m, s, frac, mark);
  }

  lemma StampSplits(h: string, m: string, s: string, frac: string, mark: char)
    requires AllDigits(h) && AllDigits(m) && AllDigits(s) && AllDigits(frac) && (mark == ',' || mark == '.')
    ensures Split(Stamp(h, m, s, mark, frac), ':') == [h, m, s + [mark] + frac]
    ensures Split(s + [mark] + frac, mark) == [s, frac]
  {
    var tail := s + [mark] + frac;
    assert Stamp(h, m, s, mark, frac) == h + [':'] + m + [':'] + tail;
    SplitOfThree(h, m, tail, ':');
    SplitAtSeparator(s, mark, frac);
    SplitOfPlain(s, mark);
    SplitOfPlain(frac, mark);
  }

  ghost predicate AllDigits(s: string) { forall c :: c in s ==> DigitChar(c) }

  // A text of digits for a number.
  ghost predicate Prints(s: string, n: nat) { AllDigits(s) && ReadNat(s) == Some(n) }

  lemma PaddedReads(n: nat, w: nat)
    ensures Prints(Padded(n, w), n)
  {
    PaddedRoundTrip(n, w);
  }

  lemma HoursRead(n: nat)
    ensures Prints(PrintNat(n), n)
  {
    NatRoundTrip(n);
  }

  lemma StampReads(hs: string, h: nat, ms: string, m: nat, ss: string, s: nat, fs: string, f: nat, mark: char,
                   unit: nat, n: nat)
    requires Prints(hs, h) && Prints(ms, m) && Prints(ss, s) && Prints(fs, f) && (mark == ',' || mark == '.')
    requires ((h * 60 + m) * 60 + s) * unit + f == n
    ensures ReadStamp(Stamp(hs, ms, ss, mark, fs), mark, unit) == Some(n)
  {
    StampRoundTrip(hs, ms, ss, fs, mark, unit);
  }

  // A printed stamp reads back as the rounded value.
  lemma SrtRoundTrip(ms: nat)
    ensures ReadStamp(SrtStamp(ms), ',', 1000) == Some(ms)
  {
    var h, m, s, f := ms / 3600000, ms / 60000 % 60, ms / 1000 % 60, ms % 1000;
    PaddedReads(h, 2);
    PaddedReads(m, 2);
    PaddedReads(s, 2);
    PaddedReads(f, 3);
    MillisecondsMakeUp(ms);
    StampReads(Padded(h, 2), h, Padded(m, 2), m, Padded(s, 2), s, Padded(f, 3), f, ',', 1000, ms);
  }

  lemma AssRoundTrip(cs: nat)
    ensures ReadStamp(AssStamp(cs), '.', 100) == Some(cs)
  {
    var h, m, s, f := cs / 360000, cs / 6000 % 60, cs / 100 % 60, cs % 100;
    HoursRead(h);
    PaddedReads(m, 2);
    PaddedReads(s, 2);
    PaddedReads(f, 2);
    CentisecondsMakeUp(cs);
    StampReads(PrintNat(h), h, Padded(m, 2), m, Padded(s, 2), s, Padded(f, 2), f, '.', 100, cs);
  }

  // Hours, minutes and seconds make up the seconds.
  lemma SecondsMakeUp(n: nat)
    ensures (n / 3600 * 60 + n / 60 % 60) * 60 + n % 60 == n
  {
    assert n / 60 / 60 == n / 3600;
  }

  lemma MillisecondsMakeUp(ms: nat)
    ensures ((ms / 3600000 * 60 + ms / 60000 % 60) * 60 + ms / 1000 % 60) * 1000 + ms % 1000 == ms
  {
    SecondsMakeUp(ms / 1000);
    assert ms / 1000 / 3600 == ms / 3600000 && ms / 1000 / 60 == ms / 60000;
  }

  lemma CentisecondsMakeUp(cs: nat)
    ensures ((cs / 360000 * 60 + cs / 6000 % 60) * 60 + cs / 100 % 60) * 100 + cs % 100 == cs
  {
    SecondsMakeUp(cs / 100);
    assert cs / 100 / 3600 == cs / 360000 && cs / 100 / 60 == cs / 6000;
  }

  // ---------- what is written ----------

  // Rounding gives the nearest integer, and of two as near the even one.
  lemma RoundIff(x: real, k: int)
    ensures Round(x) == k
            <==> || -0.5 < x - k as real < 0.5
                 || ((x - k as real == 0.5 || x - k as real == -0.5) && k % 2 == 0)
  {
    var f := x.Floor;
    if k < f || k > f + 1 {
      assert k as real <= f as real - 1.0 || k as real >= f as real + 2.0;
    }
  }

  // A number of w digits, or of as many as it needs.
  lemma PaddedWidth(n: nat, w: nat)
    ensures |Padded(n, w)| == if |Digits(n)| < w then w else |Digits(n)|
  {
    ZerosLength(if |Digits(n)| < w then w - |Digits(n)| else 0);
  }

  lemma {:induction false} ZerosLength(n: nat)
    ensures |Zeros(n)| == n
  {
    if n > 0 { ZerosLength(n - 1); }
  }

  // A field of a stamp: two figures, or three, for a number below what they can show.
  ghost predicate Field(f: string, w: nat, limit: nat) {
    |f| == w && AllDigits(f) && ReadNat(f).Some? && ReadNat(f).value < limit
  }

  lemma PaddedField(n: nat, w: nat, limit: nat)
    requires n < limit && ((w == 2 && limit <= 100) || (w == 3 && limit <= 1000))
    ensures Field(Padded(n, w), w, limit)
  {
    PaddedRoundTrip(n, w);
    PaddedWidth(n, w);
    DigitsOfSmall(n);
  }

  lemma DigitsOfSmall(n: nat)
    ensures n < 100 ==> |Digits(n)| <= 2
    ensures n < 1000 ==> |Digits(n)| <= 3
  {
    if n >= 10 {
      assert |Digits(n)| == |Digits(n / 10)| + 1;
      if n >= 100 { assert |Digits(n / 10)| == |Digits(n / 100)| + 1; }
    }
  }

  // Two figures, or as many as are needed.
  ghost predicate Hours(h: string) { |h| == 2 || (|h| > 2 && h[0] != '0') }

  ghost predicate IsSrt(stamp: string, h: string, m: string, s: string, f: string) {
    && stamp == Stamp(h, m, s, ',', f) && AllDigits(h) && Hours(h)
    && Field(m, 2, 60) && Field(s, 2, 60) && Field(f, 3, 1000)
  }

  lemma {:induction false} PaddedHours(n: nat)
    ensures AllDigits(Padded(n, 2)) && Hours(Padded(n, 2))
  {
    PaddedRoundTrip(n, 2);
    PaddedWidth(n, 2);
    if |Digits(n)| > 2 {
      LeadingDigit(n);
      assert Zeros(0) + Digits(n) == Digits(n);
      assert Padded(n, 2)[0] == CharOf(Digits(n)[0]);
    }
  }

  // An SRT stamp has minutes and seconds below sixty, two figures each, and three figures of milliseconds.
  lemma SrtFields(ms: nat)
    ensures exists h, m, s, f :: IsSrt(SrtStamp(ms), h, m, s, f)
  {
    PaddedHours(ms / 3600000);
    PaddedField(ms / 60000 % 60, 2, 60);
    PaddedField(ms / 1000 % 60, 2, 60);
    PaddedField(ms % 1000, 3, 1000);
    assert IsSrt(SrtStamp(ms), Padded(ms / 3600000, 2), Padded(ms / 60000 % 60, 2), Padded(ms / 1000 % 60, 2),
                 Padded(ms % 1000, 3));
  }

  ghost predicate IsAss(stamp: string, h: nat, m: string, s: string, f: string) {
    stamp == Stamp(PrintNat(h), m, s, '.', f) && Field(m, 2, 60) && Field(s, 2, 60) && Field(f, 2, 100)
  }

  // An ASS stamp too, with two figures of centiseconds and hours without leading zeros.
  lemma AssFields(cs: nat)
    ensures exists h, m, s, f :: IsAss(AssStamp(cs), h, m, s, f)
  {
    PaddedField(cs / 6000 % 60, 2, 60);
    PaddedField(cs / 100 % 60, 2, 60);
    PaddedField(cs % 100, 2, 100);
    assert IsAss(AssStamp(cs), cs / 360000, Padded(cs / 6000 % 60, 2), Padded(cs / 100 % 60, 2), Padded(cs % 100, 2));
  }
}
