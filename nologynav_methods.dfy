/** server/NologyNav_Methods.py: the trip summary derived from leg 0 of
    the first route, and the mapping of geocoding statuses to the
    user-facing error. Floating-point arithmetic and number formatting are
    outside the model: formatted numbers arrive as text. */
module NologyNavMethods {
  import opened Text
  import opened Directions
  import GoogleApiHandler

  // ---------------------------------------------------------------------
  // Pass-through fields
  // ---------------------------------------------------------------------

  /** count_waypoints: one waypoint per step of leg 0. */
  function CountWaypoints(r: Response): (n: nat)
    requires HasLeg(r, 0)
    ensures n == |GoogleApiHandler.Steps(r, 0)|
  {
    |r.routes[0].legs[0].steps|
  }

  /** distance_travelled: metric distances are converted to miles by
      `formatMiles` (the `'{:.1f}'` of metres / 1000 / 1.609) and suffixed
      with " mi"; any other distance text is returned unchanged. */
  function DistanceTravelled(r: Response, formatMiles: int -> string): (d: string)
    requires HasLeg(r, 0)
    ensures !Contains(r.routes[0].legs[0].distance.text, "km") ==> d == r.routes[0].legs[0].distance.text
    ensures Contains(r.routes[0].legs[0].distance.text, "km") ==>
      d == formatMiles(r.routes[0].legs[0].distance.value) + " mi" && EndsWith(d, " mi")
  {
    var distance := LegAt(r, 0).distance;
    if Contains(distance.text, "km") then
      var miles := formatMiles(distance.value);
      assert (miles + " mi")[|miles|..] == " mi";
      miles + " mi"
    else distance.text
  }

  /** total_time: leg 0's duration text, verbatim. */
  function TotalTime(r: Response): (text: string)
    requires HasLeg(r, 0)
    ensures text == r.routes[0].legs[0].duration.text
  {
    LegAt(r, 0).duration.text
  }

  /** lat_lng: (start, end) of leg 0, in that order. */
  function LatLngPair(r: Response): (pair: (LatLng, LatLng))
    requires HasLeg(r, 0)
    ensures pair.0 == r.routes[0].legs[0].startLocation
    ensures pair.1 == r.routes[0].legs[0].endLocation
  {
    (LatLng(LegAt(r, 0).startLocation.lat, LegAt(r, 0).startLocation.lng),
     LatLng(LegAt(r, 0).endLocation.lat, LegAt(r, 0).endLocation.lng))
  }

  // ---------------------------------------------------------------------
  // modes_of_transportation
  // ---------------------------------------------------------------------

  /** The step's maneuver, lower-cased, mentions a ferry. */
  predicate IsFerryManeuver(s: Step)
  {
    s.maneuver.Some? && Contains(Lower(s.maneuver.value), "ferry")
  }

  /** What one step offers to the list, in the order the loop offers it. */
  function StepCandidates(s: Step): seq<string>
  {
    [Lower(s.travelMode)] + (if IsFerryManeuver(s) then [Lower(s.maneuver.value)] else [])
  }

  /** Everything the steps offer, in step order, duplicates included. */
  function Candidates(steps: seq<Step>): (c: seq<string>)
    ensures |steps| <= |c|
  {
    if steps == [] then []
    else Candidates(steps[..|steps| - 1]) + StepCandidates(steps[|steps| - 1])
  }

  /** Keeps the first occurrence of every element. */
  function Dedup(xs: seq<string>): (d: seq<string>)
    ensures |d| <= |xs|
    ensures forall x :: x in d ==> x in xs
  {
    if xs == [] then []
    else
      var d := Dedup(xs[..|xs| - 1]);
      if xs[|xs| - 1] in d then d else d + [xs[|xs| - 1]]
  }

  predicate NoDuplicates(xs: seq<string>)
  {
    forall i, j :: 0 <= i < j < |xs| ==> xs[i] != xs[j]
  }

  /** Position of the first occurrence of x. */
  function FirstIndex(xs: seq<string>, x: string): (k: nat)
    requires x in xs
    ensures k < |xs| && xs[k] == x
    ensures x !in xs[..k]
  {
    if xs[0] == x then 0
    else
      var k := 1 + FirstIndex(xs[1..], x);
      assert xs[..k] == [xs[0]] + xs[1..][..k - 1];
      k
  }

  lemma {:induction false} FirstIndexAppend(xs: seq<string>, y: string, x: string)
    requires x in xs
    ensures FirstIndex(xs + [y], x) == FirstIndex(xs, x)
    decreases |xs|
  {
    if xs[0] != x {
      assert (xs + [y])[1..] == xs[1..] + [y];
      FirstIndexAppend(xs[1..], y, x);
    }
  }

  /** Dedup keeps exactly the elements of its input, each once, in the
      order of their first occurrence. */
  lemma {:induction false} DedupSpec(xs: seq<string>)
    ensures forall x :: x in Dedup(xs) <==> x in xs
    ensures NoDuplicates(Dedup(xs))
    ensures |Dedup(xs)| <= |xs|
    ensures forall i, j :: 0 <= i < j < |Dedup(xs)| ==>
      FirstIndex(xs, Dedup(xs)[i]) < FirstIndex(xs, Dedup(xs)[j])
    decreases |xs|
  {
    if xs != [] {
      var xs' := xs[..|xs| - 1];
      var y := xs[|xs| - 1];
      assert xs == xs' + [y];
      DedupSpec(xs');
      var d' := Dedup(xs');
      var d := Dedup(xs);
      forall z | z in xs' ensures FirstIndex(xs, z) == FirstIndex(xs', z) {
        FirstIndexAppend(xs', y, z);
      }
      if y !in d' {
        assert d == d' + [y];
        assert y !in xs';
        assert forall k :: 0 <= k < |xs'| ==> xs[k] == xs'[k];
        assert FirstIndex(xs, y) == |xs'|;
        forall i, j | 0 <= i < j < |d| ensures FirstIndex(xs, d[i]) < FirstIndex(xs, d[j]) {
          assert d[i] == d'[i] && d[i] in xs';
          if j < |d'| {
            assert d[j] == d'[j];
          }
        }
      }
    }
  }

  lemma {:induction false} CandidatesAppend(steps: seq<Step>, s: Step)
    ensures Candidates(steps + [s]) == Candidates(steps) + StepCandidates(s)
  {
    assert (steps + [s])[..|steps|] == steps;
  }

  /** At most two candidates per step. */
  lemma {:induction false} CandidatesLength(steps: seq<Step>)
    ensures |Candidates(steps)| <= 2 * |steps|
    decreases |steps|
  {
    if steps != [] {
      CandidatesLength(steps[..|steps| - 1]);
    }
  }

  /** Every step's lower-cased travel mode is a candidate. */
  lemma {:induction false} CandidatesCoverModes(steps: seq<Step>)
    ensures forall i :: 0 <= i < |steps| ==> Lower(steps[i].travelMode) in Candidates(steps)
    decreases |steps|
  {
    if steps != [] {
      var n := |steps| - 1;
      var steps' := steps[..n];
      CandidatesCoverModes(steps');
      assert Candidates(steps) == Candidates(steps') + StepCandidates(steps[n]);
      forall i | 0 <= i < |steps| ensures Lower(steps[i].travelMode) in Candidates(steps) {
        if i < n {
          assert steps[i] == steps'[i];
        } else {
          assert Lower(steps[i].travelMode) == StepCandidates(steps[n])[0];
        }
      }
    }
  }

  /** Every step's lower-cased ferry maneuver is a candidate. */
  lemma {:induction false} CandidatesCoverFerry(steps: seq<Step>)
    ensures forall i :: 0 <= i < |steps| && IsFerryManeuver(steps[i]) ==>
      Lower(steps[i].maneuver.value) in Candidates(steps)
    decreases |steps|
  {
    if steps != [] {
      var n := |steps| - 1;
      var steps' := steps[..n];
      CandidatesCoverFerry(steps');
      assert Candidates(steps) == Candidates(steps') + StepCandidates(steps[n]);
      forall i | 0 <= i < |steps| && IsFerryManeuver(steps[i])
        ensures Lower(steps[i].maneuver.value) in Candidates(steps)
      {
        if i < n {
          assert steps[i] == steps'[i];
        } else {
          assert Lower(steps[i].maneuver.value) == StepCandidates(steps[n])[1];
        }
      }
    }
  }

  /** Every candidate is offered by some step. */
  lemma {:induction false} CandidatesOrigin(steps: seq<Step>, x: string)
    requires x in Candidates(steps)
    ensures exists i :: 0 <= i < |steps| && x in StepCandidates(steps[i])
    decreases |steps|
  {
    var n := |steps| - 1;
    var steps' := steps[..n];
    assert Candidates(steps) == Candidates(steps') + StepCandidates(steps[n]);
    if x in Candidates(steps') {
      CandidatesOrigin(steps', x);
      var i :| 0 <= i < |steps'| && x in StepCandidates(steps'[i]);
      assert steps[i] == steps'[i];
    } else {
      assert x in StepCandidates(steps[n]);
    }
  }

  /** Dedup of one more element. */
  lemma DedupAppend(xs: seq<string>, x: string)
    ensures Dedup(xs + [x]) == if x in Dedup(xs) then Dedup(xs) else Dedup(xs) + [x]
  {
    assert (xs + [x])[..|xs|] == xs;
  }

  /** What one loop iteration does to the deduplicated list. */
  lemma DedupStep(before: seq<string>, s: Step)
    ensures var d := Dedup(before);
            var mode := Lower(s.travelMode);
            var d1 := if mode in d then d else d + [mode];
            Dedup(before + StepCandidates(s))
            == if IsFerryManeuver(s) && Lower(s.maneuver.value) !in d1
               then d1 + [Lower(s.maneuver.value)] else d1
  {
    var mode := Lower(s.travelMode);
    DedupAppend(before, mode);
    if IsFerryManeuver(s) {
      DedupAppend(before + [mode], Lower(s.maneuver.value));
      assert before + StepCandidates(s) == before + [mode] + [Lower(s.maneuver.value)];
    } else {
      assert before + StepCandidates(s) == before + [mode];
    }
  }

  /** modes_of_transportation: the distinct lower-cased travel modes and
      ferry maneuvers of leg 0's steps, in first-seen order. */
  method ModesOfTransportation(r: Response) returns (travelTypes: seq<string>)
    requires HasLeg(r, 0)
    ensures travelTypes == Dedup(Candidates(r.routes[0].legs[0].steps))
    ensures NoDuplicates(travelTypes)
    ensures |travelTypes| <= 2 * |r.routes[0].legs[0].steps|
    ensures forall i :: 0 <= i < |r.routes[0].legs[0].steps| ==>
      Lower(r.routes[0].legs[0].steps[i].travelMode) in travelTypes
    ensures forall i :: 0 <= i < |r.routes[0].legs[0].steps| && IsFerryManeuver(r.routes[0].legs[0].steps[i]) ==>
      Lower(r.routes[0].legs[0].steps[i].maneuver.value) in travelTypes
    ensures forall m :: m in travelTypes ==>
      exists i :: 0 <= i < |r.routes[0].legs[0].steps| &&
        (m == Lower(r.routes[0].legs[0].steps[i].travelMode) ||
         (IsFerryManeuver(r.routes[0].legs[0].steps[i]) &&
          m == Lower(r.routes[0].legs[0].steps[i].maneuver.value)))
  {
    var steps := r.routes[0].legs[0].steps;
    travelTypes := [];
    for i := 0 to |steps|
      invariant travelTypes == Dedup(Candidates(steps[..i]))
    {
      var step := steps[i];
      assert steps[..i + 1] == steps[..i] + [step];
      CandidatesAppend(steps[..i], step);
      DedupStep(Candidates(steps[..i]), step);
      if Lower(step.travelMode) !in travelTypes {
        travelTypes := travelTypes + [Lower(step.travelMode)];
      }
      if step.maneuver.Some? && Contains(Lower(step.maneuver.value), "ferry")
         && Lower(step.maneuver.value) !in travelTypes {
        travelTypes := travelTypes + [Lower(step.maneuver.value)];
      }
    }
    assert steps[..|steps|] == steps;
    ModesFacts(steps);
  }

  /** The facts about the mode list that the method promises. */
  lemma ModesFacts(steps: seq<Step>)
    ensures NoDuplicates(Dedup(Candidates(steps)))
    ensures |Dedup(Candidates(steps))| <= 2 * |steps|
    ensures forall i :: 0 <= i < |steps| ==> Lower(steps[i].travelMode) in Dedup(Candidates(steps))
    ensures forall i :: 0 <= i < |steps| && IsFerryManeuver(steps[i]) ==>
      Lower(steps[i].maneuver.value) in Dedup(Candidates(steps))
    ensures forall m :: m in Dedup(Candidates(steps)) ==>
      exists i :: 0 <= i < |steps| &&
        (m == Lower(steps[i].travelMode) || (IsFerryManeuver(steps[i]) && m == Lower(steps[i].maneuver.value)))
  {
    DedupSpec(Candidates(steps));
    CandidatesLength(steps);
    CandidatesCoverModes(steps);
    CandidatesCoverFerry(steps);
    forall m | m in Dedup(Candidates(steps))
      ensures exists i :: (0 <= i < |steps| &&
                (m == Lower(steps[i].travelMode) ||
                 (IsFerryManeuver(steps[i]) && m == Lower(steps[i].maneuver.value))))
    {
      CandidatesOrigin(steps, m);
      var i :| 0 <= i < |steps| && m in StepCandidates(steps[i]);
    }
  }

  // ---------------------------------------------------------------------
  // summary
  // ---------------------------------------------------------------------

  /** The already derived fields the sentence is built from, each as the
      text `str()` gives it. */
  datatype TripFields = TripFields(
    waypoints: string,
    distanceTravelled: string,
    totalTime: string,
    start: LatLng,
    end: LatLng,
    avgSpeed: string,
    modes: seq<string>)

  /** The two patterns that `summary` replaces, `"ferry-train"` first and
      then `"ferry"`. */
  function FerryTrain(): string { "ferry-train" }
  function Ferry(): string { "ferry" }

  /** The two replacements, longer pattern first. */
  function Rewrite(s: string): (t: string)
    ensures |s| <= |t|
  {
    ReplaceAll(ReplaceAll(s, FerryTrain(), "an auto-train"), Ferry(), "a ferry")
  }

  /** Literal words with field values in between, concatenated from the
      left as `summary` does: words[0] + fields[0] + words[1] + fields[1] ... */
  function Fill(words: seq<string>, fields: seq<string>): string
    requires |words| == |fields|
    decreases |fields|
  {
    if fields == [] then ""
    else Fill(words[..|words| - 1], fields[..|fields| - 1]) + words[|words| - 1] + fields[|fields| - 1]
  }

  /** The first two statements of `summary`. */
  function Opening(t: TripFields): string
  {
    Fill(["This journey will take ", " over "], [t.totalTime, t.distanceTravelled])
    + (Fill([", covering ", " waypoints at an average speed of "], [t.waypoints, t.avgSpeed]) + ". ")
  }

  /** The clause chosen by the number of modes; only the first three are used. */
  function ModesSentence(modes: seq<string>): string
    requires |modes| > 0
  {
    if |modes| == 1 then Fill(["It will only require "], modes[..1])
    else if |modes| == 2 then Fill(["In addition to ", ", you will also need to use "], modes[..2])
    else Fill(["In addition to ", ", you will also need to use ", " and "], modes[..3])
  }

  function CoordinatesClause(start: LatLng, end: LatLng): string
  {
    ", at a starting (Lat/Long) of (" + start.lat + ", " + start.lng
      + "), and ending at (" + end.lat + ", " + end.lng + ")"
  }

  /** The sentence `summary` returns: the replacements cover the opening and
      the modes, the coordinates are appended afterwards. */
  function SummaryText(t: TripFields): string
    requires |t.modes| > 0
  {
    Rewrite(Opening(t) + ModesSentence(t.modes)) + CoordinatesClause(t.start, t.end)
  }

  /** A single field after a single word. */
  lemma FillOne(words: seq<string>, fields: seq<string>)
    requires |words| == |fields| == 1
    ensures Fill(words, fields) == words[0] + fields[0]
  {
    assert words[..0] == [] && fields[..0] == [];
    assert Fill([], []) == [];
  }

  /** The opening spelled out. */
  lemma OpeningText(t: TripFields)
    ensures Opening(t)
         == ("This journey will take " + t.totalTime + " over " + t.distanceTravelled)
            + (", covering " + t.waypoints + " waypoints at an average speed of " + t.avgSpeed + ". ")
  {
    var w1 := ["This journey will take ", " over "];
    var f1 := [t.totalTime, t.distanceTravelled];
    FillOne(w1[..1], f1[..1]);
    var w2 := [", covering ", " waypoints at an average speed of "];
    var f2 := [t.waypoints, t.avgSpeed];
    FillOne(w2[..1], f2[..1]);
  }

  /** The modes clause spelled out for each number of modes. */
  lemma ModesSentenceText(modes: seq<string>)
    requires |modes| > 0
    ensures |modes| == 1 ==> ModesSentence(modes) == "It will only require " + modes[0]
    ensures |modes| == 2 ==>
      ModesSentence(modes) == "In addition to " + modes[0] + ", you will also need to use " + modes[1]
    ensures |modes| >= 3 ==>
      ModesSentence(modes)
      == "In addition to " + modes[0] + ", you will also need to use " + modes[1] + " and " + modes[2]
  {
    var w2 := ["In addition to ", ", you will also need to use "];
    var w3 := ["In addition to ", ", you will also need to use ", " and "];
    if |modes| == 1 {
      FillOne(["It will only require "], modes[..1]);
    } else {
      var m2 := modes[..2];
      FillOne(w2[..1], m2[..1]);
      assert Fill(w2, m2) == Fill(w2[..1], m2[..1]) + w2[1] + m2[1];
      if |modes| > 2 {
        var m3 := modes[..3];
        assert w3[..2] == w2 && m3[..2] == m2;
        assert Fill(w3, m3) == Fill(w2, m2) + w3[2] + m3[2];
      }
    }
  }

  /** A fourth mode onwards never reaches the sentence. */
  lemma ModesSentenceFirstThree(modes: seq<string>)
    requires |modes| >= 3
    ensures ModesSentence(modes) == ModesSentence(modes[..3])
  {
    assert modes[..3][..3] == modes[..3];
  }

  /** summary */
  method Summary(t: TripFields) returns (outputStr: string)
    requires |t.modes| > 0
    ensures outputStr == SummaryText(t)
  {
    OpeningText(t);
    ModesSentenceText(t.modes);
    outputStr := "This journey will take " + t.totalTime + " over " + t.distanceTravelled;
    outputStr := outputStr
      + (", covering " + t.waypoints + " waypoints at an average speed of " + t.avgSpeed + ". ");
    if |t.modes| == 1 {
      outputStr := outputStr + ("It will only require " + t.modes[0]);
    } else if |t.modes| == 2 {
      outputStr := outputStr
        + ("In addition to " + t.modes[0] + ", you will also need to use " + t.modes[1]);
    } else {
      outputStr := outputStr
        + ("In addition to " + t.modes[0] + ", you will also need to use " + t.modes[1]
           + " and " + t.modes[2]);
    }
    outputStr := ReplaceAll(outputStr, FerryTrain(), "an auto-train");
    outputStr := ReplaceAll(outputStr, Ferry(), "a ferry");
    outputStr := outputStr + CoordinatesClause(t.start, t.end);
  }

  // ---- what the replacements do to the sentence ----

  /** A character that belongs to neither pattern. */
  predicate Separator(c: char)
  {
    c !in FerryTrain()
  }

  lemma SeparatorNotInFerry(c: char)
    requires Separator(c)
    ensures c !in Ferry()
  {
    assert Ferry() == FerryTrain()[..5];
  }

  /** Both replacements distribute over a boundary that a separator guards. */
  lemma RewriteSplit(a: string, b: string)
    requires (|a| > 0 && Separator(a[|a| - 1])) || (|b| > 0 && Separator(b[0]))
    ensures Rewrite(a + b) == Rewrite(a) + Rewrite(b)
  {
    ReplaceSplit(a, b, FerryTrain(), "an auto-train");
    var a1 := ReplaceAll(a, FerryTrain(), "an auto-train");
    var b1 := ReplaceAll(b, FerryTrain(), "an auto-train");
    if |a| > 0 && Separator(a[|a| - 1]) {
      ReplaceKeepsLast(a, FerryTrain(), "an auto-train");
      SeparatorNotInFerry(a[|a| - 1]);
      assert Separated(a1, b1, Ferry());
    } else {
      ReplaceKeepsFirst(b, FerryTrain(), "an auto-train");
      SeparatorNotInFerry(b[0]);
      assert Separated(a1, b1, Ferry());
    }
    ReplaceSplit(a1, b1, Ferry(), "a ferry");
  }

  /** No `f` followed by `e`: text in which neither pattern can start. */
  predicate NoFe(w: string)
  {
    forall i :: 0 <= i < |w| - 1 && w[i] == 'f' ==> w[i + 1] != 'e'
  }

  /** Literal wording that the replacements leave alone and that no
      occurrence can reach into from either side. */
  predicate Inert(word: string)
  {
    |word| > 0 && Separator(word[0]) && Separator(word[|word| - 1]) && NoFe(word)
  }

  lemma NoFeNoOccurrence(w: string, p: string)
    requires |p| >= 2 && p[0] == 'f' && p[1] == 'e'
    requires NoFe(w)
    ensures !Contains(w, p)
  {
    forall i: nat | i <= |w| ensures !OccursAt(w, p, i) {
      if i + |p| <= |w| {
        assert w[i..i + |p|][0] == w[i] && w[i..i + |p|][1] == w[i + 1];
      }
    }
  }

  /** Text in which no pattern can start is left alone. */
  lemma RewriteNoFe(w: string)
    requires NoFe(w)
    ensures Rewrite(w) == w
  {
    NoFeNoOccurrence(w, FerryTrain());
    ReplaceAbsent(w, FerryTrain(), "an auto-train");
    NoFeNoOccurrence(w, Ferry());
    ReplaceAbsent(w, Ferry(), "a ferry");
  }

  /** An inert word cuts the text around it into independently rewritten parts. */
  lemma RewriteAroundInert(before: string, word: string, after: string)
    requires Inert(word)
    ensures Rewrite(before + word + after) == Rewrite(before) + word + Rewrite(after)
  {
    RewriteNoFe(word);
    RewriteSplit(before, word);
    RewriteSplit(before + word, after);
  }

  function RewriteEach(xs: seq<string>): (ys: seq<string>)
    ensures |ys| == |xs|
    ensures forall i :: 0 <= i < |xs| ==> ys[i] == Rewrite(xs[i])
  {
    seq(|xs|, i requires 0 <= i < |xs| => Rewrite(xs[i]))
  }

  /** Every text field and every mode rewritten; coordinates untouched. */
  function RewriteFields(t: TripFields): TripFields
  {
    t.(waypoints := Rewrite(t.waypoints),
       distanceTravelled := Rewrite(t.distanceTravelled),
       totalTime := Rewrite(t.totalTime),
       avgSpeed := Rewrite(t.avgSpeed),
       modes := RewriteEach(t.modes))
  }

  /** With inert words, rewriting the filled text rewrites each field alone. */
  lemma {:induction false} FillRewrite(words: seq<string>, fields: seq<string>)
    requires |words| == |fields|
    requires forall i :: 0 <= i < |words| ==> Inert(words[i])
    ensures Rewrite(Fill(words, fields)) == Fill(words, RewriteEach(fields))
    decreases |fields|
  {
    if fields != [] {
      var n := |fields| - 1;
      FillRewrite(words[..n], fields[..n]);
      assert RewriteEach(fields)[..n] == RewriteEach(fields[..n]);
      RewriteAroundInert(Fill(words[..n], fields[..n]), words[n], fields[n]);
    }
  }

  /** Filled text starts with the first word. */
  lemma {:induction false} FillStart(words: seq<string>, fields: seq<string>)
    requires |words| == |fields| > 0 && |words[0]| > 0
    ensures |Fill(words, fields)| > 0 && Fill(words, fields)[0] == words[0][0]
    decreases |fields|
  {
    var n := |fields| - 1;
    if n > 0 {
      FillStart(words[..n], fields[..n]);
    }
  }

  lemma OpeningWordsInert()
    ensures Inert("This journey will take ") && Inert(" over ") && Inert(", covering ")
    ensures Inert(" waypoints at an average speed of ") && Inert(". ")
  {
  }

  lemma ModesWordsInert()
    ensures Inert("It will only require ") && Inert("In addition to ")
    ensures Inert(", you will also need to use ") && Inert(" and ")
  {
  }

  /** The opening is rewritten field by field. */
  lemma OpeningRewrite(t: TripFields)
    ensures Rewrite(Opening(t)) == Opening(RewriteFields(t))
  {
    OpeningWordsInert();
    var w1 := ["This journey will take ", " over "];
    var f1 := [t.totalTime, t.distanceTravelled];
    var w2 := [", covering ", " waypoints at an average speed of "];
    var f2 := [t.waypoints, t.avgSpeed];
    FillRewrite(w1, f1);
    FillRewrite(w2, f2);
    assert RewriteEach(f1) == [Rewrite(t.totalTime), Rewrite(t.distanceTravelled)];
    assert RewriteEach(f2) == [Rewrite(t.waypoints), Rewrite(t.avgSpeed)];
    var b := Fill(w2, f2);
    FillStart(w2, f2);
    assert b + ". " == b + ". " + [];
    RewriteAroundInert(b, ". ", []);
    assert (b + ". ")[0] == ',';
    RewriteSplit(Fill(w1, f1), b + ". ");
  }

  /** The clause about the modes is rewritten mode by mode. */
  lemma ModesSentenceRewrite(modes: seq<string>)
    requires |modes| > 0
    ensures Rewrite(ModesSentence(modes)) == ModesSentence(RewriteEach(modes))
  {
    ModesWordsInert();
    var k := if |modes| < 3 then |modes| else 3;
    var words :=
      if k == 1 then ["It will only require "]
      else if k == 2 then ["In addition to ", ", you will also need to use "]
      else ["In addition to ", ", you will also need to use ", " and "];
    FillRewrite(words, modes[..k]);
    assert RewriteEach(modes)[..k] == RewriteEach(modes[..k]);
  }

  /** The replacements never touch the wording of the sentence: the summary
      is the sentence built from the fields with each field rewritten on its
      own, followed by the coordinates verbatim. */
  lemma SummaryFieldwise(t: TripFields)
    requires |t.modes| > 0
    ensures SummaryText(t)
         == Opening(RewriteFields(t)) + ModesSentence(RewriteEach(t.modes))
            + CoordinatesClause(t.start, t.end)
  {
    OpeningRewrite(t);
    ModesSentenceRewrite(t.modes);
    var o := Opening(t);
    assert o[|o| - 1] == ' ';
    RewriteSplit(o, ModesSentence(t.modes));
  }

  /** The summary opens with the rewritten opening and closes with the
      coordinates clause, untouched. */
  lemma SummaryShape(t: TripFields)
    requires |t.modes| > 0
    ensures StartsWith(SummaryText(t), Opening(RewriteFields(t)))
    ensures EndsWith(SummaryText(t), CoordinatesClause(t.start, t.end))
  {
    SummaryFieldwise(t);
    var o := Opening(RewriteFields(t));
    var m := ModesSentence(RewriteEach(t.modes));
    var c := CoordinatesClause(t.start, t.end);
    assert (o + m + c)[..|o|] == o;
    assert (o + m + c)[|o + m + c| - |c|..] == c;
  }

  // ---- the two patterns on the modes Google reports ----

  lemma RewriteFerryTrain()
    ensures Rewrite(FerryTrain()) == "an auto-train"
  {
    ReplaceWhole(FerryTrain(), "an auto-train");
    NoFeNoOccurrence("an auto-train", Ferry());
    ReplaceAbsent("an auto-train", Ferry(), "a ferry");
  }

  lemma RewriteFerry()
    ensures Rewrite(Ferry()) == "a ferry"
  {
    assert ReplaceAll(Ferry(), FerryTrain(), "an auto-train") == Ferry();
    ReplaceWhole(Ferry(), "a ferry");
  }

  /** Three modes or more: each of the first three is rewritten on its own. */
  lemma ModesSentenceRewriteThree(modes: seq<string>)
    requires |modes| >= 3
    ensures Rewrite(ModesSentence(modes))
         == "In addition to " + Rewrite(modes[0]) + ", you will also need to use " + Rewrite(modes[1])
            + " and " + Rewrite(modes[2])
  {
    ModesSentenceRewrite(modes);
    ModesSentenceText(RewriteEach(modes));
  }

  lemma RewriteDriving()
    ensures Rewrite("driving") == "driving"
  {
    RewriteNoFe("driving");
  }

  /** "ferry-train" becomes "an auto-train" and "ferry" becomes "a ferry",
      while "driving" is left alone. */
  lemma ModesSentenceAutoTrainThenFerry()
    ensures Rewrite(ModesSentence(["driving", FerryTrain(), Ferry()]))
         == "In addition to " + "driving" + ", you will also need to use " + "an auto-train" + " and " + "a ferry"
  {
    RewriteFerryTrain();
    RewriteFerry();
    RewriteDriving();
    ModesSentenceRewriteThree(["driving", FerryTrain(), Ferry()]);
  }

  /** The same with the two boat modes the other way round. */
  lemma ModesSentenceFerryThenAutoTrain()
    ensures Rewrite(ModesSentence(["driving", Ferry(), FerryTrain()]))
         == "In addition to " + "driving" + ", you will also need to use " + "a ferry" + " and " + "an auto-train"
  {
    RewriteFerryTrain();
    RewriteFerry();
    RewriteDriving();
    ModesSentenceRewriteThree(["driving", Ferry(), FerryTrain()]);
  }

  /** Replacing "ferry" inside "ferry-train" leaves a fresh "ferry-train". */
  lemma FerryInsideFerryTrain()
    ensures ReplaceAll(FerryTrain(), Ferry(), "a ferry") == "a " + FerryTrain()
  {
    var rest := "-train";
    assert FerryTrain() == Ferry() + rest;
    NoFeNoOccurrence(rest, Ferry());
    ReplaceLeadingOccurrence(Ferry(), rest, "a ferry");
  }

  /** Why the longer pattern goes first: in the other order "ferry-train"
      would come out as "a an auto-train". */
  lemma ShorterPatternFirstGarbles()
    ensures ReplaceAll(ReplaceAll(FerryTrain(), Ferry(), "a ferry"), FerryTrain(), "an auto-train")
         == "a " + "an auto-train"
  {
    FerryInsideFerryTrain();
    AutoTrainAfterArticle();
  }

  lemma AutoTrainAfterArticle()
    ensures ReplaceAll("a " + FerryTrain(), FerryTrain(), "an auto-train") == "a " + "an auto-train"
  {
    var lead := "a ";
    NoFeNoOccurrence(lead, FerryTrain());
    ReplaceTrailingOccurrence(lead, FerryTrain(), "an auto-train");
  }

  // ---------------------------------------------------------------------
  // retrieve_data_from_google, after the fetch
  // ---------------------------------------------------------------------

  /** What `retrieve_data_from_google` hands back: the payload itself, or
      the dictionary `{"error": message}`. */
  datatype Retrieval = Payload(response: Response) | RouteError(error: string)

  const OriginAndDestinationNotFound := "We are unable to find the origin and destination."
  const OriginNotFound := "We are unable to find that origin."
  const DestinationNotFound := "We are unable to find that destination."

  function NoDrivingRoute(origin: string, destination: string): string
  {
    "We are unable to find a driving route between " + origin + " and " + destination + "."
  }

  /** The status mapping. Both geocoder statuses are read, so the payload
      must carry two geocoded waypoints. */
  method RetrieveDataFromGoogle(origin: string, destination: string, result: Response)
    returns (retrieval: Retrieval)
    requires |result.geocodedWaypoints| >= 2
    ensures var o := result.geocodedWaypoints[0].geocoderStatus;
            var d := result.geocodedWaypoints[1].geocoderStatus;
            && (o == "ZERO_RESULTS" && d == "ZERO_RESULTS" ==>
                  retrieval == RouteError(OriginAndDestinationNotFound))
            && (o == "ZERO_RESULTS" && d != "ZERO_RESULTS" ==>
                  retrieval == RouteError(OriginNotFound))
            && (o != "ZERO_RESULTS" && d == "ZERO_RESULTS" ==>
                  retrieval == RouteError(DestinationNotFound))
            && (o == "OK" && d == "OK" && result.status == "ZERO_RESULTS" ==>
                  retrieval == RouteError(NoDrivingRoute(origin, destination)))
            && (o != "ZERO_RESULTS" && d != "ZERO_RESULTS"
                && !(o == "OK" && d == "OK" && result.status == "ZERO_RESULTS") ==>
                  retrieval == Payload(result))
  {
    var originStatus := result.geocodedWaypoints[0].geocoderStatus;
    var destinationStatus := result.geocodedWaypoints[1].geocoderStatus;
    var error := "";
    if originStatus == "OK" && destinationStatus == "OK" && result.status == "ZERO_RESULTS" {
      error := NoDrivingRoute(origin, destination);
    }
    if originStatus == "ZERO_RESULTS" && destinationStatus == "ZERO_RESULTS" {
      error := OriginAndDestinationNotFound;
    } else if originStatus == "ZERO_RESULTS" {
      error := OriginNotFound;
    } else if destinationStatus == "ZERO_RESULTS" {
      error := DestinationNotFound;
    }
    retrieval := if error == "" then Payload(result) else RouteError(error);
  }
}
