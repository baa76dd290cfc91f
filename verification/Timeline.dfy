// build.py's timeline: scenes laid end to end, and points of a recording mapped to assembled time.
// Times are exact (real), and the length ffprobe reports for a clip is taken to be its exact length.
module Timeline {
  import opened Text

  // One row of the scene table. A clip without a first marker starts at the beginning of its recording.
  datatype Scene =
    | Still(name: string)
    | Whole(name: string)
    | Clip(name: string, src: string, first: Option<string>, last: string, speed: real)
    | Hold(name: string, src: string, mark: string, shift: real)

  // A clip once its markers are looked up and its place is known: seconds from..to of recording src, played at speed
  // from assembled time start on.
  datatype Piece = Piece(name: string, src: string, from: real, to: real, speed: real, start: real)

  // at(name): None when the marker is in no recording.
  function At(marks: map<string, real>, name: Option<string>): Option<real> {
    match name case None => Some(0.0) case Some(m) => if m in marks then Some(marks[m]) else None
  }

  // ---------- assembling ----------

  // The markers a scene names are known, and a clip's end marker comes after its start marker.
  predicate Usable(sc: Scene, marks: map<string, real>) {
    match sc
    case Still(_) => true
    case Whole(_) => true
    case Hold(_, _, m, _) => m in marks
    case Clip(_, _, first, last, _) =>
      At(marks, first).Some? && last in marks && At(marks, first).value < marks[last]
  }

  // A clip without a first marker starts at second zero.
  lemma UsableIff(sc: Scene, marks: map<string, real>)
    ensures sc.Still? || sc.Whole? ==> Usable(sc, marks)
    ensures sc.Hold? ==> (Usable(sc, marks) <==> sc.mark in marks)
    ensures sc.Clip?
            ==> (Usable(sc, marks)
                 <==> sc.last in marks
                      && if sc.first.None? then 0.0 < marks[sc.last]
                         else sc.first.value in marks && marks[sc.first.value] < marks[sc.last])
  {}

  function SumOf(ds: seq<real>): real { if ds == [] then 0.0 else SumOf(ds[..|ds| - 1]) + ds[|ds| - 1] }

  lemma {:induction false} SumOfAppend(a: seq<real>, b: seq<real>)
    ensures SumOf(a + b) == SumOf(a) + SumOf(b)
  {
    if b == [] {
      assert a + b == a;
    } else {
      SumOfAppend(a, b[..|b| - 1]);
      assert (a + b)[..|a + b| - 1] == a + b[..|b| - 1];
    }
  }

  // A clip with its markers looked up, from assembled time t on.
  function PieceOf(sc: Scene, marks: map<string, real>, t: real): Piece
    requires sc.Clip? && Usable(sc, marks)
  {
    Piece(sc.name, sc.src, At(marks, sc.first).value, marks[sc.last], sc.speed, t)
  }

  // The clips of the table in order, each starting where the scenes before it end. probes are the scene lengths.
  function Pieces(scenes: seq<Scene>, probes: seq<real>, marks: map<string, real>): seq<Piece>
    requires |scenes| == |probes| && forall i :: 0 <= i < |scenes| ==> Usable(scenes[i], marks)
  {
    if scenes == [] then []
    else
      var n := |scenes| - 1;
      var sc := scenes[n];
      assert Usable(sc, marks);
      var rest := Pieces(scenes[..n], probes[..n], marks);
      if sc.Clip?
      then rest + [PieceOf(sc, marks, SumOf(probes[..n]))]
      else rest
  }

  // The scene loop: start and dur by scene name, and the clips.
  class Assembly {
    var start: map<string, real>
    var dur: map<string, real>
    var t: real
    var pieces: seq<Piece>

    constructor ()
      ensures start == map[] && dur == map[] && t == 0.0 && pieces == []
    {
      start, dur, t, pieces := map[], map[], 0.0, [];
    }

    method Add(sc: Scene, probe: real, marks: map<string, real>)
      requires Usable(sc, marks)
      modifies this
      ensures start == old(start)[sc.name := old(t)] && dur == old(dur)[sc.name := probe] && t == old(t) + probe
      ensures pieces == old(pieces) + if sc.Clip?
              then [PieceOf(sc, marks, old(t))] else []
    {
      if sc.Clip? {
        pieces := pieces + [Piece(sc.name, sc.src, At(marks, sc.first).value, marks[sc.last], sc.speed, t)];
      }
      start, dur := start[sc.name := t], dur[sc.name := probe];
      t := t + probe;
    }
  }

  // Distinct scene names, as the table has: start and dur are keyed by name.
  ghost predicate DistinctNames(scenes: seq<Scene>) {
    forall i, j :: 0 <= i < j < |scenes| ==> scenes[i].name != scenes[j].name
  }

  // start and dur of the first n scenes: each starts where those before it end.
  ghost predicate Records(start: map<string, real>, dur: map<string, real>, scenes: seq<Scene>, probes: seq<real>,
                          n: nat)
    requires n <= |scenes| == |probes|
  {
    forall i :: 0 <= i < n
      ==> (&& scenes[i].name in start && start[scenes[i].name] == SumOf(probes[..i])
           && scenes[i].name in dur && dur[scenes[i].name] == probes[i])
  }

  lemma RecordsMore(start: map<string, real>, dur: map<string, real>, scenes: seq<Scene>, probes: seq<real>, n: nat)
    requires n < |scenes| == |probes| && DistinctNames(scenes) && Records(start, dur, scenes, probes, n)
    ensures Records(start[scenes[n].name := SumOf(probes[..n])], dur[scenes[n].name := probes[n]],
                    scenes, probes, n + 1)
  {}

  lemma PiecesMore(scenes: seq<Scene>, probes: seq<real>, marks: map<string, real>, n: nat)
    requires n < |scenes| == |probes| && forall i :: 0 <= i <= n ==> Usable(scenes[i], marks)
    ensures Pieces(scenes[..n + 1], probes[..n + 1], marks) == Pieces(scenes[..n], probes[..n], marks)
              + (if scenes[n].Clip? then [PieceOf(scenes[n], marks, SumOf(probes[..n]))] else [])
    ensures SumOf(probes[..n + 1]) == SumOf(probes[..n]) + probes[n]
  {
    assert scenes[..n + 1][..n] == scenes[..n] && probes[..n + 1][..n] == probes[..n];
  }

  method Assemble(scenes: seq<Scene>, probes: seq<real>, marks: map<string, real>) returns (a: Assembly, ok: bool)
    requires |scenes| == |probes|
    ensures fresh(a)
    ensures ok <==> forall i :: 0 <= i < |scenes| ==> Usable(scenes[i], marks)
    ensures ok ==> a.pieces == Pieces(scenes, probes, marks) && a.t == SumOf(probes)
    ensures ok && DistinctNames(scenes) ==> Records(a.start, a.dur, scenes, probes, |scenes|)
  {
    a := new Assembly();
    ok := true;
    for n := 0 to |scenes|
      invariant fresh(a) && ok
      invariant forall i :: 0 <= i < n ==> Usable(scenes[i], marks)
      invariant a.t == SumOf(probes[..n]) && a.pieces == Pieces(scenes[..n], probes[..n], marks)
      invariant DistinctNames(scenes) ==> Records(a.start, a.dur, scenes, probes, n)
    {
      if !Usable(scenes[n], marks) { return a, false; }
      PiecesMore(scenes, probes, marks, n);
      if DistinctNames(scenes) { RecordsMore(a.start, a.dur, scenes, probes, n); }
      a.Add(scenes[n], probes[n], marks);
    }
    assert scenes[..|scenes|] == scenes && probes[..|probes|] == probes;
  }

  // ---------- recording time to assembled time ----------

  function Length(p: Piece): real
    requires p.speed > 0.0
  { (p.to - p.from) / p.speed }

  // Start anchors belong to the clip that begins at them, end anchors to the clip that ends at them.
  predicate Contains(p: Piece, cut: string, tc: real, isEnd: bool) {
    p.src == cut && if isEnd then p.from < tc <= p.to else p.from <= tc < p.to
  }

  // Where a recorded second of a clip is in assembled time, and which recorded second an assembled time shows.
  function Place(p: Piece, tc: real): real
    requires p.speed > 0.0
  { p.start + (tc - p.from) / p.speed }

  function Frame(p: Piece, t: real): real { p.from + (t - p.start) * p.speed }

  lemma FrameAndPlace(p: Piece, x: real)
    requires p.speed > 0.0
    ensures Frame(p, Place(p, x)) == x && Place(p, Frame(p, x)) == x
  {
    var q := (x - p.from) / p.speed;
    assert q * p.speed == x - p.from;
    assert Place(p, x) - p.start == q;
    var r := (x - p.start) * p.speed;
    assert r / p.speed == x - p.start;
    assert Frame(p, x) - p.from == r;
  }

  // T on an anchor: the first clip of the cut that contains it; None when it falls outside every clip.
  function Locate(ps: seq<Piece>, cut: string, tc: real, isEnd: bool): Option<real>
    requires Playable(ps)
  {
    if ps == [] then None
    else if Contains(ps[0], cut, tc, isEnd) then Some(Place(ps[0], tc))
    else Locate(ps[1..], cut, tc, isEnd)
  }

  ghost predicate Playable(ps: seq<Piece>) {
    forall i :: 0 <= i < |ps| ==> ps[i].speed > 0.0 && ps[i].from < ps[i].to
  }

  // The clips follow one another in assembled time, none before t.
  ghost predicate InOrder(ps: seq<Piece>, t: real)
    requires Playable(ps)
  {
    ps == [] || (t <= ps[0].start && InOrder(ps[1..], ps[0].start + Length(ps[0])))
  }

  // The clips of one cut tile its recording from at on, in order: each starts where the one before it ends.
  ghost predicate Tiles(ps: seq<Piece>, cut: string, at: real) {
    ps == []
    || (if ps[0].src == cut then ps[0].from == at && Tiles(ps[1..], cut, ps[0].to) else Tiles(ps[1..], cut, at))
  }

  // Where the tiling of a cut ends.
  function EndOf(ps: seq<Piece>, cut: string, at: real): real {
    if ps == [] then at else EndOf(ps[1..], cut, if ps[0].src == cut then ps[0].to else at)
  }

  lemma DivideLess(a: real, b: real, k: real)
    requires k > 0.0
    ensures a < b <==> a / k < b / k
    ensures a <= b <==> a / k <= b / k
  {
  }

  lemma {:induction false} EndAfter(ps: seq<Piece>, cut: string, at: real)
    requires Playable(ps) && Tiles(ps, cut, at)
    ensures EndOf(ps, cut, at) >= at
  {
    if ps == [] {
    } else {
      EndAfter(ps[1..], cut, if ps[0].src == cut then ps[0].to else at);
    }
  }

  // Every anchor of the recording's tiled part is in exactly one clip, and no other anchor is in any.
  lemma {:induction false} ExactlyOneClip(ps: seq<Piece>, cut: string, at: real, tc: real, isEnd: bool)
    requires Playable(ps) && Tiles(ps, cut, at)
    ensures var inside := if isEnd then at < tc <= EndOf(ps, cut, at) else at <= tc < EndOf(ps, cut, at);
            && (inside <==> Locate(ps, cut, tc, isEnd).Some?)
            && (inside <==> exists i :: 0 <= i < |ps| && Contains(ps[i], cut, tc, isEnd))
            && (forall i, j :: 0 <= i < j < |ps|
                  ==> !(Contains(ps[i], cut, tc, isEnd) && Contains(ps[j], cut, tc, isEnd)))
  {
    if ps == [] {
    } else {
      var next := if ps[0].src == cut then ps[0].to else at;
      ExactlyOneClip(ps[1..], cut, next, tc, isEnd);
      EndAfter(ps[1..], cut, next);
      assert forall i :: 1 <= i < |ps| ==> ps[i] == ps[1..][i - 1];
      if Contains(ps[0], cut, tc, isEnd) {
        assert forall i :: 1 <= i < |ps| ==> !Contains(ps[i], cut, tc, isEnd);
      }
    }
  }

  // A point of the head clip is mapped inside its stretch of the assembled video.
  lemma HeadStretch(p: Piece, cut: string, tc: real, isEnd: bool)
    requires p.speed > 0.0 && p.from < p.to && Contains(p, cut, tc, isEnd)
    ensures var v := Place(p, tc);
            && p.start <= v <= p.start + Length(p)
            && (tc > p.from ==> p.start < v) && (tc < p.to ==> v < p.start + Length(p))
  {
    DivideLess(0.0, tc - p.from, p.speed);
    DivideLess(tc - p.from, p.to - p.from, p.speed);
  }

  // No point of the tiling is mapped to before the clips begin, and only its very beginning is mapped to their
  // beginning.
  lemma {:induction false} LocateAfter(ps: seq<Piece>, t: real, cut: string, at: real, tc: real, isEnd: bool)
    requires Playable(ps) && InOrder(ps, t) && Tiles(ps, cut, at) && Locate(ps, cut, tc, isEnd).Some?
    ensures tc >= at && Locate(ps, cut, tc, isEnd).value >= t
    ensures tc > at ==> Locate(ps, cut, tc, isEnd).value > t
  {
    var next := if ps[0].src == cut then ps[0].to else at;
    if Contains(ps[0], cut, tc, isEnd) {
      HeadStretch(ps[0], cut, tc, isEnd);
    } else {
      DivideLess(0.0, ps[0].to - ps[0].from, ps[0].speed);
      LocateAfter(ps[1..], ps[0].start + Length(ps[0]), cut, next, tc, isEnd);
    }
  }

  // Later in the recording is later in the assembled video, whichever kinds the two anchors are; in particular a
  // caption from a start anchor to a later end anchor has positive length.
  lemma {:induction false} LocateIsMonotone(ps: seq<Piece>, t: real, cut: string, at: real,
                                            x: real, xEnd: bool, y: real, yEnd: bool)
    requires Playable(ps) && InOrder(ps, t) && Tiles(ps, cut, at) && x < y
    requires Locate(ps, cut, x, xEnd).Some? && Locate(ps, cut, y, yEnd).Some?
    ensures Locate(ps, cut, x, xEnd).value < Locate(ps, cut, y, yEnd).value
  {
    var p := ps[0];
    var next, after := if p.src == cut then p.to else at, p.start + Length(p);
    if Contains(p, cut, x, xEnd) {
      HeadStretch(p, cut, x, xEnd);
      if Contains(p, cut, y, yEnd) {
        DivideLess(x - p.from, y - p.from, p.speed);
      } else {
        LocateAfter(ps[1..], after, cut, next, y, yEnd);
      }
    } else {
      LocateAfter(ps[1..], after, cut, next, x, xEnd);
      if !Contains(p, cut, y, yEnd) {
        LocateIsMonotone(ps[1..], after, cut, next, x, xEnd, y, yEnd);
      }
    }
  }

  // At one and the same marker an end anchor is never later than a start anchor.
  lemma {:induction false} EndIsNotLaterThanStart(ps: seq<Piece>, t: real, cut: string, at: real, tc: real)
    requires Playable(ps) && InOrder(ps, t) && Tiles(ps, cut, at)
    requires Locate(ps, cut, tc, true).Some? && Locate(ps, cut, tc, false).Some?
    ensures Locate(ps, cut, tc, true).value <= Locate(ps, cut, tc, false).value
  {
    var p := ps[0];
    var next, after := if p.src == cut then p.to else at, p.start + Length(p);
    if Contains(p, cut, tc, true) {
      HeadStretch(p, cut, tc, true);
      if !Contains(p, cut, tc, false) {
        LocateAfter(ps[1..], after, cut, next, tc, false);
      }
    } else {
      LocateAfter(ps[1..], after, cut, next, tc, true);
      if !Contains(p, cut, tc, false) {
        EndIsNotLaterThanStart(ps[1..], t, cut, next, tc) by { DivideLess(0.0, p.to - p.from, p.speed); }
      }
    }
  }

  // ---------- assembled time back to recording time ----------

  // The recording and the second shown at assembled time t: by the clip playing then. A clip's frames fill the time
  // from its start up to, not including, its end; the frame an end anchor names is the one reached at the end of that
  // time.
  predicate Plays(p: Piece, t: real, isEnd: bool)
    requires p.speed > 0.0
  {
    if isEnd then p.start < t <= p.start + Length(p) else p.start <= t < p.start + Length(p)
  }

  function ShownAt(ps: seq<Piece>, t: real, isEnd: bool): Option<(string, real)>
    requires Playable(ps)
  {
    if ps == [] then None
    else
      var p := ps[0];
      if Plays(p, t, isEnd) then Some((p.src, Frame(p, t)))
      else ShownAt(ps[1..], t, isEnd)
  }

  // The frame shown at T(tc) is the one recorded at tc, for every positive speed.
  lemma {:induction false} ShownAtLocated(ps: seq<Piece>, t: real, cut: string, at: real, tc: real, isEnd: bool)
    requires Playable(ps) && InOrder(ps, t) && Tiles(ps, cut, at) && Locate(ps, cut, tc, isEnd).Some?
    ensures ShownAt(ps, Locate(ps, cut, tc, isEnd).value, isEnd) == Some((cut, tc))
  {
    var p := ps[0];
    var next, after := if p.src == cut then p.to else at, p.start + Length(p);
    if Contains(p, cut, tc, isEnd) {
      HeadStretch(p, cut, tc, isEnd);
      FrameAndPlace(p, tc);
    } else {
      LocateAfter(ps[1..], after, cut, next, tc, isEnd);
      if isEnd { LocateEndAfter(ps[1..], after, cut, tc); }
      ShownAtLocated(ps[1..], after, cut, next, tc, isEnd);
    }
  }

  lemma {:induction false} LocateEndAfter(ps: seq<Piece>, t: real, cut: string, tc: real)
    requires Playable(ps) && InOrder(ps, t) && Locate(ps, cut, tc, true).Some?
    ensures Locate(ps, cut, tc, true).value > t
  {
    var p := ps[0];
    DivideLess(0.0, p.to - p.from, p.speed);
    if Contains(p, cut, tc, true) {
      HeadStretch(p, cut, tc, true);
    } else {
      LocateEndAfter(ps[1..], p.start + Length(p), cut, tc);
    }
  }

  // And back: whatever second of a cut is shown at t, T of that second is t.
  lemma {:induction false} LocatedAtShown(ps: seq<Piece>, t0: real, cut: string, at: real, t: real, isEnd: bool)
    requires Playable(ps) && InOrder(ps, t0) && Tiles(ps, cut, at)
    requires ShownAt(ps, t, isEnd).Some? && ShownAt(ps, t, isEnd).value.0 == cut
    ensures var tc := ShownAt(ps, t, isEnd).value.1;
            tc >= at && (isEnd ==> tc > at) && Locate(ps, cut, tc, isEnd) == Some(t)
  {
    var p := ps[0];
    var next := if p.src == cut then p.to else at;
    if Plays(p, t, isEnd) {
      FrameAndPlace(p, t);
      FrameAndPlace(p, p.to);
      TimesLess(0.0, t - p.start, p.speed);
      TimesLess(t - p.start, Length(p), p.speed);
    } else {
      LocatedAtShown(ps[1..], p.start + Length(p), cut, next, t, isEnd);
    }
  }

  lemma TimesLess(a: real, b: real, k: real)
    requires k > 0.0
    ensures a < b <==> a * k < b * k
    ensures a <= b <==> a * k <= b * k
  {
  }

  // ---------- the assembled clips are in order, and a chained table tiles ----------

  // Exact scene lengths: none negative, and a clip's is its stretch of the recording at its speed, which is positive.
  ghost predicate ExactProbes(scenes: seq<Scene>, probes: seq<real>, marks: map<string, real>) {
    && |scenes| == |probes|
    && (forall i :: 0 <= i < |scenes| ==> Usable(scenes[i], marks) && probes[i] >= 0.0)
    && (forall i :: 0 <= i < |scenes| && scenes[i].Clip? ==>
          scenes[i].speed > 0.0 && probes[i] == ClipLength(scenes[i], marks))
  }

  function ClipLength(sc: Scene, marks: map<string, real>): real
    requires sc.Clip? && Usable(sc, marks) && sc.speed > 0.0
  { (marks[sc.last] - At(marks, sc.first).value) / sc.speed }

  function LastEnd(ps: seq<Piece>, t: real): real
    requires Playable(ps)
  { if ps == [] then t else ps[|ps| - 1].start + Length(ps[|ps| - 1]) }

  lemma {:induction false} InOrderSnoc(ps: seq<Piece>, p: Piece, t: real)
    requires Playable(ps + [p]) && Playable(ps) && InOrder(ps, t) && LastEnd(ps, t) <= p.start
    ensures InOrder(ps + [p], t)
  {
    if ps == [] {
      assert (ps + [p])[1..] == [];
    } else {
      assert (ps + [p])[1..] == ps[1..] + [p];
      InOrderSnoc(ps[1..], p, ps[0].start + Length(ps[0]));
    }
  }

  lemma {:induction false} PiecesInOrder(scenes: seq<Scene>, probes: seq<real>, marks: map<string, real>)
    requires ExactProbes(scenes, probes, marks)
    ensures Playable(Pieces(scenes, probes, marks)) && InOrder(Pieces(scenes, probes, marks), 0.0)
    ensures LastEnd(Pieces(scenes, probes, marks), 0.0) <= SumOf(probes)
  {
    if scenes == [] {
    } else {
      var n := |scenes| - 1;
      PiecesInOrder(scenes[..n], probes[..n], marks);
      var rest := Pieces(scenes[..n], probes[..n], marks);
      if scenes[n].Clip? {
        assert Usable(scenes[n], marks);
        var p := Pieces(scenes, probes, marks)[|rest|];
        assert probes[n] == Length(p);
        InOrderSnoc(rest, p, 0.0);
      }
    }
  }

  // The end marker of the last clip of a cut, if it has one.
  function LastMark(scenes: seq<Scene>, cut: string): Option<string> {
    if scenes == [] then None
    else
      var sc := scenes[|scenes| - 1];
      if sc.Clip? && sc.src == cut then Some(sc.last) else LastMark(scenes[..|scenes| - 1], cut)
  }

  // Each clip of the cut starts at the marker where the cut's previous clip ends, the first one at the beginning.
  predicate Chained(scenes: seq<Scene>, cut: string) {
    scenes == []
    || (var sc := scenes[|scenes| - 1];
        && (sc.Clip? && sc.src == cut ==> sc.first == LastMark(scenes[..|scenes| - 1], cut))
        && Chained(scenes[..|scenes| - 1], cut))
  }

  lemma {:induction false} TilesSnoc(ps: seq<Piece>, p: Piece, cut: string, at: real)
    requires Tiles(ps, cut, at) && (p.src == cut ==> p.from == EndOf(ps, cut, at))
    ensures Tiles(ps + [p], cut, at)
    ensures EndOf(ps + [p], cut, at) == if p.src == cut then p.to else EndOf(ps, cut, at)
  {
    if ps == [] {
      assert (ps + [p])[1..] == [];
    } else {
      assert (ps + [p])[1..] == ps[1..] + [p];
      TilesSnoc(ps[1..], p, cut, if ps[0].src == cut then ps[0].to else at);
    }
  }

  // Whatever times the markers have, the clips of a chained table tile the recording from its beginning.
  lemma {:induction false} ChainedTableTiles(scenes: seq<Scene>, probes: seq<real>, marks: map<string, real>,
                                             cut: string)
    requires ExactProbes(scenes, probes, marks) && Chained(scenes, cut)
    ensures Tiles(Pieces(scenes, probes, marks), cut, 0.0)
    ensures At(marks, LastMark(scenes, cut)) == Some(EndOf(Pieces(scenes, probes, marks), cut, 0.0))
  {
    if scenes == [] {
    } else {
      var n := |scenes| - 1;
      ChainedTableTiles(scenes[..n], probes[..n], marks, cut);
      if scenes[n].Clip? {
        assert Usable(scenes[n], marks);
        var rest := Pieces(scenes[..n], probes[..n], marks);
        TilesSnoc(rest, Pieces(scenes, probes, marks)[|rest|], cut, 0.0);
      }
    }
  }

  // ---------- the shipped table ----------

  function Cl(name: string, src: string, first: Option<string>, last: string): Scene {
    Clip(name, src, first, last, 1.0)
  }

  const OBSERVE := "observe"
  const PROVISION := "provision"
  const GAP := "gap"

  function ObserveRow(i: nat): Scene {
    if i == 0 then Still("title") else if i == 1 then Whole("intro") else if i == 2 then Still("card1")
    else if i == 3 then Cl("obs-static", OBSERVE, None, "observe.static")
    else if i == 4 then Hold("hold-0", OBSERVE, "observe.static", -0.05)
    else if i == 5 then Cl("obs-chain", OBSERVE, Some("observe.static"), "observe.chain")
    else if i == 6 then Hold("hold-chain", OBSERVE, "observe.chain", 0.1)
    else if i == 7 then Hold("hold-edges", OBSERVE, "observe.edges", -0.05)
    else if i == 8 then Still("topo") else Still("card2")
  }

  function ApplyRow(i: nat): Scene {
    if i == 10 then Cl("pv-before", PROVISION, None, "provision.before")
    else if i == 11 then Cl("pv-plan", PROVISION, Some("provision.before"), "provision.approve")
    else if i == 12 then Cl("pv-module", PROVISION, Some("provision.approve"), "provision.module")
    else if i == 13 then Cl("pv-gen", PROVISION, Some("provision.module"), "provision.output")
    else Clip("pv-apply", PROVISION, Some("provision.output"), "provision.apply", 1.5)
  }

  function LandedRow(i: nat): Scene {
    if i == 15 then Cl("pv-landed", PROVISION, Some("provision.apply"), "provision.activation")
    else if i == 16 then Cl("pv-14", PROVISION, Some("provision.activation"), "provision.after")
    else if i == 17 then Hold("hold-14", PROVISION, "provision.after", -0.05)
    else if i == 18 then Cl("pv-rollback", PROVISION, Some("provision.after"), "provision.deactivated")
    else if i == 19 then Cl("pv-back0", PROVISION, Some("provision.deactivated"), "provision.rollback")
    else Hold("hold-final", PROVISION, "provision.rollback", -0.05)
  }

  function GapRow(i: nat): Scene {
    if i == 21 then Still("card3")
    else if i == 22 then Cl("gap", GAP, None, "gap.result")
    else if i == 23 then Hold("hold-gap", GAP, "gap.result", -0.05)
    else Whole("outro")
  }

  function Row(i: nat): Scene {
    if i < 10 then ObserveRow(i) else if i < 15 then ApplyRow(i) else if i < 21 then LandedRow(i) else GapRow(i)
  }

  const SCENES: seq<Scene> := seq(25, i requires 0 <= i < 25 => Row(i))

  // The marker each recording has reached before row n.
  function Reached(n: nat, cut: string): Option<string> {
    if cut == OBSERVE then ReachedObserve(n)
    else if cut == PROVISION then if n < 15 then ReachedApply(n) else ReachedLanded(n)
    else if cut == GAP then if n <= 22 then None else Some("gap.result")
    else None
  }

  function ReachedObserve(n: nat): Option<string> {
    if n <= 3 then None else if n <= 5 then Some("observe.static") else Some("observe.chain")
  }

  function ReachedApply(n: nat): Option<string> {
    if n <= 10 then None else if n == 11 then Some("provision.before") else if n == 12 then Some("provision.approve")
    else if n == 13 then Some("provision.module") else Some("provision.output")
  }

  function ReachedLanded(n: nat): Option<string> {
    if n == 15 then Some("provision.apply") else if n == 16 then Some("provision.activation")
    else if n <= 18 then Some("provision.after") else if n == 19 then Some("provision.deactivated")
    else Some("provision.rollback")
  }

  // Row sc takes a cut from one marker to the next.
  predicate Moves(sc: Scene, cut: string, before: Option<string>, after: Option<string>) {
    if sc.Clip? && sc.src == cut then sc.first == before && after == Some(sc.last) else after == before
  }

  lemma CutsDiffer()
    ensures OBSERVE != PROVISION && OBSERVE != GAP && PROVISION != GAP
  {
    assert |OBSERVE| == 7 && |PROVISION| == 9 && |GAP| == 3;
  }

  lemma ObserveRowMoves(n: nat, cut: string)
    requires n < 10
    ensures Moves(ObserveRow(n), cut, Reached(n, cut), Reached(n + 1, cut))
  {
    CutsDiffer();
  }

  lemma ApplyRowMoves(n: nat, cut: string)
    requires 10 <= n < 15
    ensures Moves(ApplyRow(n), cut, Reached(n, cut), Reached(n + 1, cut))
  {
    CutsDiffer();
  }

  lemma LandedRowMoves(n: nat, cut: string)
    requires 15 <= n < 21
    ensures Moves(LandedRow(n), cut, Reached(n, cut), Reached(n + 1, cut))
  {
    CutsDiffer();
  }

  lemma GapRowMoves(n: nat, cut: string)
    requires 21 <= n < 25
    ensures Moves(GapRow(n), cut, Reached(n, cut), Reached(n + 1, cut))
  {
    CutsDiffer();
  }

  lemma RowMoves(n: nat, cut: string)
    requires n < 25
    ensures Moves(Row(n), cut, Reached(n, cut), Reached(n + 1, cut))
  {
    if n < 10 {
      ObserveRowMoves(n, cut);
    } else if n < 15 {
      ApplyRowMoves(n, cut);
    } else if n < 21 {
      LandedRowMoves(n, cut);
    } else {
      GapRowMoves(n, cut);
    }
  }

  lemma ChainedStep(scenes: seq<Scene>, sc: Scene, cut: string, before: Option<string>, after: Option<string>)
    requires Chained(scenes, cut) && LastMark(scenes, cut) == before && Moves(sc, cut, before, after)
    ensures Chained(scenes + [sc], cut) && LastMark(scenes + [sc], cut) == after
  {
    assert (scenes + [sc])[..|scenes|] == scenes;
  }

  lemma {:induction false} ShippedPrefix(n: nat, cut: string)
    requires n <= 25
    ensures Chained(SCENES[..n], cut) && LastMark(SCENES[..n], cut) == Reached(n, cut)
  {
    if n == 0 {
    } else {
      ShippedPrefix(n - 1, cut);
      RowMoves(n - 1, cut);
      assert SCENES[..n] == SCENES[..n - 1] + [Row(n - 1)];
      ChainedStep(SCENES[..n - 1], Row(n - 1), cut, Reached(n - 1, cut), Reached(n, cut));
    }
  }

  lemma ShippedIsChained(cut: string)
    ensures Chained(SCENES, cut)
  {
    ShippedPrefix(25, cut);
    assert SCENES[..25] == SCENES;
  }

  // The shipped table is chained for every recording, so for any markers the assertions let through, its clips tile
  // each recording from the beginning.
  lemma ShippedTableTiles(probes: seq<real>, marks: map<string, real>, cut: string)
    requires ExactProbes(SCENES, probes, marks)
    ensures Tiles(Pieces(SCENES, probes, marks), cut, 0.0)
  {
    ShippedIsChained(cut);
    ChainedTableTiles(SCENES, probes, marks, cut);
  }
}
