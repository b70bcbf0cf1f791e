/** The pot/spike episode tracker of FullScreenAnalyse. Each analysed frame is
    reduced to a count per label; a frame without detections arms the tracker, and
    the next frame that shows a pot opens a new pot entry. While a pot is in view,
    every positive wheat-spike count is recorded in that pot's set, and the pot's
    published count is the largest value recorded. */
module Tracker {
  import opened Common
  import opened Decoding

  /** The class names that drive the tracker. */
  const POT_LABEL: string := "Pot"
  const SPIKE_LABEL: string := "Wheat Spike"

  /** "Pot" + n: the key of pot n in both maps. */
  function PotKey(n: nat): (key: string)
    ensures |key| >= 4 && key[..3] == "Pot"
  {
    "Pot" + Decimal(n)
  }

  lemma PotKeyInjective(a: nat, b: nat)
    ensures PotKey(a) == PotKey(b) ==> a == b
  {
    if PotKey(a) == PotKey(b) {
      assert Decimal(a) == PotKey(a)[3..];
      assert Decimal(b) == PotKey(b)[3..];
      DecimalInjective(a, b);
    }
  }

  /** The keys of pots 0 .. n. */
  function PotKeys(n: nat): set<string>
  {
    set i: nat | i <= n :: PotKey(i)
  }

  /** The fields nextPotId, detectionBit, spikePerPotSet and spikePerPot. */
  datatype TrackerState = TrackerState(
    nextPotId: nat,
    detectionBit: bool,
    spikePerPotSet: map<string, set<int>>,
    spikePerPot: map<string, int>)

  /** What every frame keeps: both maps hold exactly the pots opened so far, and
      each pot's published count is the largest value in its set, or 0 when the set
      is empty. */
  predicate Inv(s: TrackerState)
  {
    && s.spikePerPotSet.Keys == PotKeys(s.nextPotId)
    && s.spikePerPot.Keys == PotKeys(s.nextPotId)
    && forall k :: k in s.spikePerPot ==> s.spikePerPot[k] == MaxOrZero(s.spikePerPotSet[k])
  }

  /** Lines 56-59 and 79-80: pot 0 open with an empty set and a count of 0. */
  function Initial(): (s: TrackerState)
    ensures Inv(s)
  {
    assert PotKeys(0) == {PotKey(0)};
    TrackerState(0, false, map[PotKey(0) := {}], map[PotKey(0) := 0])
  }

  lemma PotKeysGrow(n: nat)
    ensures PotKeys(n + 1) == PotKeys(n) + {PotKey(n + 1)}
    ensures PotKey(n + 1) !in PotKeys(n)
  {
    forall i: nat | i <= n
      ensures PotKey(i) != PotKey(n + 1)
    {
      PotKeyInjective(i, n + 1);
    }
  }

  lemma CurrentPotOpen(s: TrackerState)
    requires Inv(s)
    ensures PotKey(s.nextPotId) in s.spikePerPotSet && PotKey(s.nextPotId) in s.spikePerPot
  {
    assert PotKey(s.nextPotId) in PotKeys(s.nextPotId);
  }

  /** The recording part of a frame (lines 188-205), before the published count of
      the current pot is refreshed. */
  function Record(s: TrackerState, objectCounts: map<string, int>): TrackerState
    requires PotKey(s.nextPotId) in s.spikePerPotSet
  {
    if objectCounts == map[] then
      var cur := PotKey(s.nextPotId);
      var recorded := s.spikePerPotSet[cur];
      s.(detectionBit := true,
         spikePerPotSet := if |recorded| <= 1 then s.spikePerPotSet[cur := recorded + {-1}] else s.spikePerPotSet)
    else if GetOrDefault(objectCounts, POT_LABEL, 0) > 0 then
      var reopened :=
        if s.detectionBit then
          var n := s.nextPotId + 1;
          s.(nextPotId := n,
             spikePerPotSet := s.spikePerPotSet[PotKey(n) := {}],
             spikePerPot := s.spikePerPot[PotKey(n) := 0],
             detectionBit := false)
        else s;
      var cur := PotKey(reopened.nextPotId);
      if GetOrDefault(objectCounts, SPIKE_LABEL, 0) > 0 then
        reopened.(spikePerPotSet := reopened.spikePerPotSet[cur := reopened.spikePerPotSet[cur] + {objectCounts[SPIKE_LABEL]}])
      else reopened
    else s
  }

  /** Recording touches only the current pot's entries (opening it first when the
      tracker is armed), so the key sets stay those of the pots opened so far. */
  predicate RecordsInPlace(s: TrackerState, r: TrackerState)
  {
    && (r.nextPotId == s.nextPotId || r.nextPotId == s.nextPotId + 1)
    && r.spikePerPotSet.Keys == PotKeys(r.nextPotId)
    && r.spikePerPot.Keys == PotKeys(r.nextPotId)
    && forall k :: k in r.spikePerPot && k != PotKey(r.nextPotId) ==>
         k in s.spikePerPot && k in s.spikePerPotSet &&
         r.spikePerPot[k] == s.spikePerPot[k] && r.spikePerPotSet[k] == s.spikePerPotSet[k]
  }

  lemma RecordOpensPot(s: TrackerState, objectCounts: map<string, int>)
    requires Inv(s)
    requires objectCounts != map[] && GetOrDefault(objectCounts, POT_LABEL, 0) > 0 && s.detectionBit
    ensures PotKey(s.nextPotId) in s.spikePerPotSet
    ensures RecordsInPlace(s, Record(s, objectCounts))
  {
    CurrentPotOpen(s);
    var r := Record(s, objectCounts);
    var n := s.nextPotId + 1;
    PotKeysGrow(s.nextPotId);
    assert r.nextPotId == n && r.spikePerPot == s.spikePerPot[PotKey(n) := 0];
    assert r.spikePerPotSet.Keys == PotKeys(n);
    forall k | k in r.spikePerPot && k != PotKey(n)
      ensures k in s.spikePerPot && k in s.spikePerPotSet && r.spikePerPotSet[k] == s.spikePerPotSet[k]
    {
      assert k in PotKeys(s.nextPotId);
    }
  }

  lemma RecordStaysOnPot(s: TrackerState, objectCounts: map<string, int>)
    requires Inv(s)
    requires !(objectCounts != map[] && GetOrDefault(objectCounts, POT_LABEL, 0) > 0 && s.detectionBit)
    ensures PotKey(s.nextPotId) in s.spikePerPotSet
    ensures RecordsInPlace(s, Record(s, objectCounts))
  {
    CurrentPotOpen(s);
    var r := Record(s, objectCounts);
    assert r.spikePerPot == s.spikePerPot && r.nextPotId == s.nextPotId;
    assert r.spikePerPotSet.Keys == s.spikePerPotSet.Keys;
  }

  lemma RecordFrame(s: TrackerState, objectCounts: map<string, int>)
    requires Inv(s)
    ensures PotKey(s.nextPotId) in s.spikePerPotSet
    ensures RecordsInPlace(s, Record(s, objectCounts))
  {
    if objectCounts != map[] && GetOrDefault(objectCounts, POT_LABEL, 0) > 0 && s.detectionBit {
      RecordOpensPot(s, objectCounts);
    } else {
      RecordStaysOnPot(s, objectCounts);
    }
  }

  /** Lines 207-211: publish the current pot's largest recorded value, or 0 when
      nothing is recorded. */
  function Publish(s: TrackerState): TrackerState
    requires PotKey(s.nextPotId) in s.spikePerPotSet
  {
    var cur := PotKey(s.nextPotId);
    var values := s.spikePerPotSet[cur];
    s.(spikePerPot := s.spikePerPot[cur := if |values| >= 1 then MaxOrZero(values) else 0])
  }

  lemma PublishKeepsInv(s: TrackerState, recorded: TrackerState)
    requires Inv(s) && RecordsInPlace(s, recorded)
    ensures PotKey(recorded.nextPotId) in recorded.spikePerPotSet
    ensures Inv(Publish(recorded))
  {
    var cur := PotKey(recorded.nextPotId);
    assert cur in PotKeys(recorded.nextPotId);
    var r := Publish(recorded);
    assert r.spikePerPot.Keys == recorded.spikePerPot.Keys;
    forall k | k in r.spikePerPot
      ensures r.spikePerPot[k] == MaxOrZero(r.spikePerPotSet[k])
    {
      if k != cur {
        assert r.spikePerPot[k] == s.spikePerPot[k];
      }
    }
  }

  /** One frame of the tracker: record (lines 188-205), then publish (207-211). */
  function Step(s: TrackerState, objectCounts: map<string, int>): (r: TrackerState)
    requires Inv(s)
    ensures Inv(r)
  {
    RecordFrame(s, objectCounts);
    PublishKeepsInv(s, Record(s, objectCounts));
    Publish(Record(s, objectCounts))
  }

  /** Whether the frame opens a new pot: it shows a pot while the tracker is armed
      (lines 194-195). */
  predicate OpensPot(s: TrackerState, objectCounts: map<string, int>)
  {
    objectCounts != map[] && GetOrDefault(objectCounts, POT_LABEL, 0) > 0 && s.detectionBit
  }

  /** The pot id rises by exactly one on a frame that opens a pot and stays put on
      every other frame. */
  lemma StepAdvancesOnlyOnOpening(s: TrackerState, objectCounts: map<string, int>)
    requires Inv(s)
    ensures Step(s, objectCounts).nextPotId == s.nextPotId + (if OpensPot(s, objectCounts) then 1 else 0)
  {
  }

  /** An empty frame arms the tracker, stays on the same pot, and adds the -1 marker
      only to a set with at most one value. */
  lemma StepOnEmptyFrame(s: TrackerState)
    requires Inv(s)
    ensures var r := Step(s, map[]);
      var before := s.spikePerPotSet[PotKey(s.nextPotId)];
      && r.detectionBit
      && r.nextPotId == s.nextPotId
      && r.spikePerPotSet[PotKey(r.nextPotId)] == if |before| <= 1 then before + {-1} else before
  {
    CurrentPotOpen(s);
  }

  /** A frame with a pot disarms the tracker and records the spike count, only when
      positive, in the current pot: a fresh one when the tracker was armed. */
  lemma StepOnPotFrame(s: TrackerState, objectCounts: map<string, int>)
    requires Inv(s)
    requires objectCounts != map[] && GetOrDefault(objectCounts, POT_LABEL, 0) > 0
    ensures var r := Step(s, objectCounts);
      && !r.detectionBit
      && r.spikePerPotSet[PotKey(r.nextPotId)] ==
           (if s.detectionBit then {} else s.spikePerPotSet[PotKey(s.nextPotId)]) +
           (if GetOrDefault(objectCounts, SPIKE_LABEL, 0) > 0 then {objectCounts[SPIKE_LABEL]} else {})
  {
    CurrentPotOpen(s);
  }

  /** A frame with detections but no pot, even one with wheat spikes, changes nothing. */
  lemma StepIgnoresFrameWithoutPot(s: TrackerState, objectCounts: map<string, int>)
    requires Inv(s)
    requires objectCounts != map[] && GetOrDefault(objectCounts, POT_LABEL, 0) <= 0
    ensures Step(s, objectCounts) == s
  {
    CurrentPotOpen(s);
    var cur := PotKey(s.nextPotId);
    var values := s.spikePerPotSet[cur];
    assert (if |values| >= 1 then MaxOrZero(values) else 0) == s.spikePerPot[cur];
    assert Step(s, objectCounts).spikePerPot == s.spikePerPot;
  }

  /** Pots before the current one are never touched again. */
  lemma StepFreezesEarlierPots(s: TrackerState, objectCounts: map<string, int>)
    requires Inv(s)
    ensures var r := Step(s, objectCounts);
      forall n: nat :: n < r.nextPotId ==>
        && PotKey(n) in s.spikePerPotSet && PotKey(n) in s.spikePerPot
        && r.spikePerPotSet[PotKey(n)] == s.spikePerPotSet[PotKey(n)]
        && r.spikePerPot[PotKey(n)] == s.spikePerPot[PotKey(n)]
  {
    RecordFrame(s, objectCounts);
    var recorded := Record(s, objectCounts);
    var r := Step(s, objectCounts);
    forall n: nat | n < r.nextPotId
      ensures PotKey(n) in s.spikePerPotSet && PotKey(n) in s.spikePerPot
      ensures r.spikePerPotSet[PotKey(n)] == s.spikePerPotSet[PotKey(n)]
      ensures r.spikePerPot[PotKey(n)] == s.spikePerPot[PotKey(n)]
    {
      assert PotKey(n) in PotKeys(r.nextPotId);
      PotKeyInjective(n, r.nextPotId);
      assert r.spikePerPot[PotKey(n)] == recorded.spikePerPot[PotKey(n)];
    }
  }

  /** The published count of the current pot after a frame. */
  lemma StepPublishesMax(s: TrackerState, objectCounts: map<string, int>)
    requires Inv(s)
    ensures var r := Step(s, objectCounts);
      var values := r.spikePerPotSet[PotKey(r.nextPotId)];
      && (values == {} ==> r.spikePerPot[PotKey(r.nextPotId)] == 0)
      && (values != {} ==> IsMaxOf(r.spikePerPot[PotKey(r.nextPotId)], values))
  {
    var r := Step(s, objectCounts);
    assert PotKey(r.nextPotId) in PotKeys(r.nextPotId);
  }

  /** Feed frames to the tracker in order. */
  function Run(s: TrackerState, frames: seq<map<string, int>>): (r: TrackerState)
    requires Inv(s)
    ensures Inv(r)
    ensures r.nextPotId >= s.nextPotId
    decreases |frames|
  {
    if frames == [] then s
    else
      StepAdvancesOnlyOnOpening(s, frames[0]);
      Run(Step(s, frames[0]), frames[1..])
  }

  /** The frames of two sightings of a pot with a gap between them, after an
      initial empty frame. */
  const EPISODE_FRAMES: seq<map<string, int>> := [
    map[], map["Pot" := 1], map["Pot" := 1, "Wheat Spike" := 3],
    map["Pot" := 1, "Wheat Spike" := 5], map[], map["Pot" := 1],
    map["Pot" := 1, "Wheat Spike" := 2]]

  lemma SmallPotKeys()
    ensures PotKey(0) == "Pot0" && PotKey(1) == "Pot1" && PotKey(2) == "Pot2"
  {
  }

  /** The tracker after each frame of EPISODE_FRAMES. */
  const AFTER_1 := TrackerState(0, true, map["Pot0" := {-1}], map["Pot0" := -1])
  const AFTER_2 := TrackerState(1, false, map["Pot0" := {-1}, "Pot1" := {}], map["Pot0" := -1, "Pot1" := 0])
  const AFTER_3 := TrackerState(1, false, map["Pot0" := {-1}, "Pot1" := {3}], map["Pot0" := -1, "Pot1" := 3])
  const AFTER_4 := TrackerState(1, false, map["Pot0" := {-1}, "Pot1" := {3, 5}], map["Pot0" := -1, "Pot1" := 5])
  const AFTER_5 := TrackerState(1, true, map["Pot0" := {-1}, "Pot1" := {3, 5}], map["Pot0" := -1, "Pot1" := 5])
  const AFTER_6 := TrackerState(2, false, map["Pot0" := {-1}, "Pot1" := {3, 5}, "Pot2" := {}],
                                map["Pot0" := -1, "Pot1" := 5, "Pot2" := 0])
  const AFTER_7 := TrackerState(2, false, map["Pot0" := {-1}, "Pot1" := {3, 5}, "Pot2" := {2}],
                                map["Pot0" := -1, "Pot1" := 5, "Pot2" := 2])

  /** Frame 1, empty: pot 0 gets the -1 marker and the tracker is armed. */
  lemma EpisodeFrame1()
    ensures Step(Initial(), EPISODE_FRAMES[0]) == AFTER_1 && Inv(AFTER_1)
  {
    SmallPotKeys();
    assert IsMaxOf(-1, {-1});
  }

  /** Frame 2 shows a pot: pot 1 opens empty. */
  lemma EpisodeFrame2()
    requires Inv(AFTER_1)
    ensures Step(AFTER_1, EPISODE_FRAMES[1]) == AFTER_2 && Inv(AFTER_2)
  {
    SmallPotKeys();
    assert "Pot" in EPISODE_FRAMES[1];
  }

  /** Frame 3 records 3 spikes in pot 1. */
  lemma EpisodeFrame3()
    requires Inv(AFTER_2)
    ensures Step(AFTER_2, EPISODE_FRAMES[2]) == AFTER_3 && Inv(AFTER_3)
  {
    SmallPotKeys();
    assert "Pot" in EPISODE_FRAMES[2];
    assert IsMaxOf(3, {3});
  }

  /** Frame 4 records 5 spikes in pot 1, which now publishes 5. */
  lemma EpisodeFrame4()
    requires Inv(AFTER_3)
    ensures Step(AFTER_3, EPISODE_FRAMES[3]) == AFTER_4 && Inv(AFTER_4)
  {
    SmallPotKeys();
    assert "Pot" in EPISODE_FRAMES[3];
    assert {3} + {5} == {3, 5};
    assert IsMaxOf(5, {3, 5});
  }

  /** Frame 5, empty: pot 1 already holds two values, so only the arming changes. */
  lemma EpisodeFrame5()
    requires Inv(AFTER_4)
    ensures Step(AFTER_4, EPISODE_FRAMES[4]) == AFTER_5 && Inv(AFTER_5)
  {
    SmallPotKeys();
    assert |{3, 5}| == 2;
    assert IsMaxOf(5, {3, 5});
  }

  /** Frame 6 shows a pot while armed: pot 2 opens empty. */
  lemma EpisodeFrame6()
    requires Inv(AFTER_5)
    ensures Step(AFTER_5, EPISODE_FRAMES[5]) == AFTER_6 && Inv(AFTER_6)
  {
    SmallPotKeys();
    assert "Pot" in EPISODE_FRAMES[5];
  }

  /** Frame 7 records 2 spikes in pot 2. */
  lemma EpisodeFrame7()
    requires Inv(AFTER_6)
    ensures Step(AFTER_6, EPISODE_FRAMES[6]) == AFTER_7 && Inv(AFTER_7)
  {
    SmallPotKeys();
    assert "Pot" in EPISODE_FRAMES[6];
    assert IsMaxOf(2, {2});
  }

  /** Feeding frames one at a time. */
  lemma RunStep(s: TrackerState, frames: seq<map<string, int>>)
    requires Inv(s) && frames != []
    ensures Run(s, frames) == Run(Step(s, frames[0]), frames[1..])
  {
  }

  /** Two sightings of a pot with a gap between them, after an initial empty frame:
      pot 0 keeps the -1 marker that the opening empty frame left, pot 1 publishes
      5 and pot 2 publishes 2. */
  lemma TwoEpisodes()
    ensures var r := Run(Initial(), EPISODE_FRAMES);
      r.nextPotId == 2 &&
      r.spikePerPot == map["Pot0" := -1, "Pot1" := 5, "Pot2" := 2]
  {
    var f := EPISODE_FRAMES;
    EpisodeFrame1();
    EpisodeFrame2();
    EpisodeFrame3();
    EpisodeFrame4();
    EpisodeFrame5();
    EpisodeFrame6();
    EpisodeFrame7();
    RunStep(Initial(), f);
    RunStep(AFTER_1, f[1..]);
    RunStep(AFTER_2, f[2..]);
    RunStep(AFTER_3, f[3..]);
    RunStep(AFTER_4, f[4..]);
    RunStep(AFTER_5, f[5..]);
    RunStep(AFTER_6, f[6..]);
    assert f[1..][1..] == f[2..] && f[2..][1..] == f[3..] && f[3..][1..] == f[4..];
    assert f[4..][1..] == f[5..] && f[5..][1..] == f[6..] && f[6..][1..] == [];
    assert Run(Initial(), f) == AFTER_7;
  }

  /** A first frame that already shows a pot with 4 spikes stays on pot 0. */
  lemma FirstFrameStaysOnPotZero()
    ensures var r := Step(Initial(), map["Pot" := 1, "Wheat Spike" := 4]);
      r.nextPotId == 0 && r.spikePerPot == map["Pot0" := 4]
  {
    var f := map["Pot" := 1, "Wheat Spike" := 4];
    assert PotKey(0) == "Pot0";
    assert Record(Initial(), f).spikePerPotSet[PotKey(0)] == {4};
    assert IsMaxOf(4, {4});
    assert MaxOrZero({4}) == 4;
  }

  /** objectCounts as lines 173-185 build it from the class names of a frame: one
      more for each occurrence of a name. */
  function Tally(names: seq<string>): map<string, int>
  {
    if names == [] then map[]
    else
      var before := Tally(names[..|names| - 1]);
      var name := names[|names| - 1];
      before[name := GetOrDefault(before, name, 0) + 1]
  }

  /** The tally holds the names of the frame and, for each, how many recognitions
      carry it; it is empty exactly when the frame has no recognitions. */
  lemma {:induction false} TallyCountsOccurrences(names: seq<string>)
    ensures forall name :: name in Tally(names) <==> name in names
    ensures forall name :: GetOrDefault(Tally(names), name, 0) == multiset(names)[name]
    ensures Tally(names) == map[] <==> names == []
  {
    if names != [] {
      var init := names[..|names| - 1];
      TallyCountsOccurrences(init);
      assert names == init + [names[|names| - 1]];
      assert names[|names| - 1] in Tally(names);
    }
  }

  /** The class names of the recognitions, in order. */
  function Names(recognitions: seq<Recognition>): (names: seq<string>)
    ensures |names| == |recognitions|
    ensures forall i :: 0 <= i < |recognitions| ==> names[i] == recognitions[i].labelName
  {
    if recognitions == [] then []
    else Names(recognitions[..|recognitions| - 1]) + [recognitions[|recognitions| - 1].labelName]
  }

  /** The counting loop of lines 173-185. */
  method CountObjects(recognitions: seq<Recognition>) returns (objectCounts: map<string, int>)
    ensures objectCounts == Tally(Names(recognitions))
  {
    objectCounts := map[];
    for i := 0 to |recognitions|
      invariant objectCounts == Tally(Names(recognitions[..i]))
    {
      var name := recognitions[i].labelName;
      assert recognitions[..i + 1][..i] == recognitions[..i];
      assert Names(recognitions[..i + 1])[..i] == Names(recognitions[..i]);
      objectCounts := objectCounts[name := GetOrDefault(objectCounts, name, 0) + 1];
    }
    assert recognitions[..|recognitions|] == recognitions;
  }

  /** The status line: "Pot n: k wheat spikes". */
  function CountsText(potId: nat, count: int): (text: string)
    ensures |text| >= 19 && text[..4] == "Pot " && text[|text| - 13..] == " wheat spikes"
  {
    "Pot " + Decimal(potId) + ": " + IntToString(count) + " wheat spikes"
  }

  /** A run of digits followed by ':' splits at the colon. */
  lemma DigitsBeforeColon(d1: string, rest1: string, d2: string, rest2: string)
    requires forall i :: 0 <= i < |d1| ==> IsDigit(d1[i])
    requires forall i :: 0 <= i < |d2| ==> IsDigit(d2[i])
    requires |rest1| > 0 && rest1[0] == ':' && |rest2| > 0 && rest2[0] == ':'
    ensures d1 + rest1 == d2 + rest2 ==> d1 == d2 && rest1 == rest2
  {
    if d1 + rest1 == d2 + rest2 {
      assert d1 == (d1 + rest1)[..|d1|];
      assert d2 == (d2 + rest2)[..|d2|];
      assert rest1 == (d1 + rest1)[|d1|..];
      assert rest2 == (d2 + rest2)[|d2|..];
    }
  }

  /** The part of the status line after the pot id. */
  function CountsTail(count: int): string
  {
    ": " + IntToString(count) + " wheat spikes"
  }

  lemma CountsTextParts(potId: nat, count: int)
    ensures CountsText(potId, count)[4..] == Decimal(potId) + CountsTail(count)
    ensures |CountsTail(count)| > 15 && CountsTail(count)[0] == ':'
    ensures CountsTail(count)[2..|CountsTail(count)| - 13] == IntToString(count)
  {
    assert CountsText(potId, count) == "Pot " + (Decimal(potId) + CountsTail(count));
  }

  /** The status line gives back the pot and the count it was built from. */
  lemma CountsTextInjective(p1: nat, k1: int, p2: nat, k2: int)
    ensures CountsText(p1, k1) == CountsText(p2, k2) ==> p1 == p2 && k1 == k2
  {
    if CountsText(p1, k1) == CountsText(p2, k2) {
      CountsTextParts(p1, k1);
      CountsTextParts(p2, k2);
      DigitsBeforeColon(Decimal(p1), CountsTail(k1), Decimal(p2), CountsTail(k2));
      DecimalInjective(p1, p2);
      IntToStringInjective(k1, k2);
    }
  }

  class FullScreenAnalyse {
    var nextPotId: nat
    var detectionBit: bool
    var spikePerPotSet: map<string, set<int>>
    var spikePerPot: map<string, int>

    function State(): TrackerState
      reads this
    {
      TrackerState(nextPotId, detectionBit, spikePerPotSet, spikePerPot)
    }

    predicate Valid()
      reads this
    {
      Inv(State())
    }

    /** Lines 56-59 and 78-80. */
    constructor()
      ensures State() == Initial()
      ensures Valid()
    {
      nextPotId := 0;
      detectionBit := false;
      spikePerPotSet := map[PotKey(0) := {}];
      spikePerPot := map[PotKey(0) := 0];
    }

    /** The tracker update of lines 188-211, field by field. */
    method UpdateTracker(objectCounts: map<string, int>)
      requires Valid()
      modifies this
      ensures State() == Step(old(State()), objectCounts)
      ensures Valid()
    {
      CurrentPotOpen(State());
      if objectCounts == map[] {
        detectionBit := true;
        var cur := PotKey(nextPotId);
        if |spikePerPotSet[cur]| <= 1 {
          spikePerPotSet := spikePerPotSet[cur := spikePerPotSet[cur] + {-1}];
        }
      } else {
        if GetOrDefault(objectCounts, POT_LABEL, 0) > 0 {
          if detectionBit {
            nextPotId := nextPotId + 1;
            spikePerPotSet := spikePerPotSet[PotKey(nextPotId) := {}];
            spikePerPot := spikePerPot[PotKey(nextPotId) := 0];
            detectionBit := false;
          }
          if GetOrDefault(objectCounts, SPIKE_LABEL, 0) > 0 {
            var cur := PotKey(nextPotId);
            spikePerPotSet := spikePerPotSet[cur := spikePerPotSet[cur] + {objectCounts[SPIKE_LABEL]}];
          }
        }
      }
      var cur := PotKey(nextPotId);
      if |spikePerPotSet[cur]| >= 1 {
        spikePerPot := spikePerPot[cur := MaxOrZero(spikePerPotSet[cur])];
      } else {
        spikePerPot := spikePerPot[cur := 0];
      }
    }

    /** The counting and tracking half of analyze for one frame's recognitions. */
    method Analyze(recognitions: seq<Recognition>)
      requires Valid()
      modifies this
      ensures State() == Step(old(State()), Tally(Names(recognitions)))
      ensures Valid()
    {
      var objectCounts := CountObjects(recognitions);
      UpdateTracker(objectCounts);
    }

    /** generateCountsText (lines 234-244): the current pot and its count, 0 when
        the pot has none. */
    function GenerateCountsText(): (text: string)
      reads this
      ensures Valid() ==> text == CountsText(nextPotId, spikePerPot[PotKey(nextPotId)])
    {
      CountsText(nextPotId, GetOrDefault(spikePerPot, PotKey(nextPotId), 0))
    }
  }
}
