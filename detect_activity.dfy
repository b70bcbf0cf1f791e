/** The logic of the detection screen (DetectActivity): the screen-rotation
    mapping, the threshold buttons, the numbering of a new session, and the rows
    written when a session's pot counts are saved. */
module DetectScreen {
  import opened Common
  import opened Detector
  import opened Tracker

  /** Surface.ROTATION_0 .. ROTATION_270 are the codes 0 .. 3. */
  const ROTATION_0: int := 0
  const ROTATION_90: int := 1
  const ROTATION_180: int := 2
  const ROTATION_270: int := 3

  /** getScreenOrientation (lines 71-82): the display rotation in degrees; any code
      that is not one of the four rotations maps to 0. */
  function ScreenOrientation(rotation: int): (degrees: int)
    ensures ROTATION_0 <= rotation <= ROTATION_270 ==> degrees == 90 * rotation
    ensures !(ROTATION_0 <= rotation <= ROTATION_270) ==> degrees == 0
  {
    if rotation == ROTATION_270 then 270
    else if rotation == ROTATION_180 then 180
    else if rotation == ROTATION_90 then 90
    else 0
  }

  /** Line 164: one step up, capped at 1. */
  function Incremented(threshold: real): real
  {
    if threshold + 0.1 <= 1.0 then threshold + 0.1 else 1.0
  }

  /** Line 172: one step down, floored at 0. */
  function Decremented(threshold: real): real
  {
    if threshold - 0.1 >= 0.0 then threshold - 0.1 else 0.0
  }

  /** The buttons never push the threshold out of [0, 1], each moves it by at most
      one step in its own direction, and away from the ends a step up is undone by
      a step down. */
  lemma ThresholdButtons(t: real)
    ensures Incremented(t) <= 1.0 && Decremented(t) >= 0.0
    ensures 0.0 <= t <= 1.0 ==> 0.0 <= Incremented(t) && Decremented(t) <= 1.0
    ensures t <= 1.0 ==> t <= Incremented(t) <= t + 0.1
    ensures t >= 0.0 ==> t - 0.1 <= Decremented(t) <= t
    ensures 0.0 <= t <= 0.9 ==> Decremented(Incremented(t)) == t
  {
  }

  /** The increment button (lines 161-167). */
  method IncrementDetectThreshold(detector: Yolov5TFLiteDetector)
    modifies detector
    ensures detector.detectThreshold == Incremented(old(detector.detectThreshold))
    ensures detector.iouThreshold == old(detector.iouThreshold)
    ensures detector.associatedAxisLabels == old(detector.associatedAxisLabels)
  {
    var t := detector.detectThreshold + 0.1;
    detector.detectThreshold := if t <= 1.0 then t else 1.0;
  }

  /** The decrement button (lines 169-175). */
  method DecrementDetectThreshold(detector: Yolov5TFLiteDetector)
    modifies detector
    ensures detector.detectThreshold == Decremented(old(detector.detectThreshold))
    ensures detector.iouThreshold == old(detector.iouThreshold)
    ensures detector.associatedAxisLabels == old(detector.associatedAxisLabels)
  {
    var t := detector.detectThreshold - 0.1;
    detector.detectThreshold := if t >= 0.0 then t else 0.0;
  }

  /** A row of the sessions table. */
  datatype SessionRow = SessionRow(userId: int, sessionNumber: int, status: string)

  /** The session numbers a user already has. */
  function SessionNumbersOf(sessions: seq<SessionRow>, userId: int): set<int>
  {
    set i | 0 <= i < |sessions| && sessions[i].userId == userId :: sessions[i].sessionNumber
  }

  /** startNewSession (lines 257-276): the new session row of a user, numbered one
      past IFNULL(MAX(session_number), 0) over that user's sessions, and active. */
  function NewSession(sessions: seq<SessionRow>, userId: int): (row: SessionRow)
    ensures row.userId == userId && row.status == "active"
    ensures forall i :: 0 <= i < |sessions| && sessions[i].userId == userId ==>
              sessions[i].sessionNumber < row.sessionNumber
    ensures SessionNumbersOf(sessions, userId) == {} ==> row.sessionNumber == 1
    ensures SessionNumbersOf(sessions, userId) != {} ==>
              row.sessionNumber - 1 in SessionNumbersOf(sessions, userId)
  {
    var numbers := SessionNumbersOf(sessions, userId);
    var sessionNumber := MaxOrZero(numbers) + 1;
    assert forall i :: 0 <= i < |sessions| && sessions[i].userId == userId ==>
             sessions[i].sessionNumber in numbers;
    SessionRow(userId, sessionNumber, "active")
  }

  /** A row of the potData table; None is SQL NULL. */
  datatype PotRow = PotRow(sessionId: int, potId: Option<string>, wheatSpikes: Option<int>)

  /** The entries saveObjectCountsToDatabase keeps (lines 289-295): a count of at
      least 0, and any pot but Pot0. */
  function ValidCounts(spikePerPot: map<string, int>): (valid: map<string, int>)
    ensures forall k :: k in valid <==> k in spikePerPot && spikePerPot[k] >= 0 && k != "Pot0"
    ensures forall k :: k in valid ==> valid[k] == spikePerPot[k]
  {
    map k | k in spikePerPot && spikePerPot[k] >= 0 && k != "Pot0" :: spikePerPot[k]
  }

  /** What saving the counts does: nothing when there is no analyser, otherwise the
      potData rows written, and the session is then marked complete at endTime. */
  datatype SaveOutcome = NothingSaved | Saved(rows: seq<PotRow>, completedAt: string)

  /** The saved rows carry exactly the valid entries, one row per pot. */
  predicate RowsMatch(rows: seq<PotRow>, sessionId: int, valid: map<string, int>)
  {
    && |rows| == |valid.Keys|
    && (forall i :: 0 <= i < |rows| ==>
          && rows[i].sessionId == sessionId
          && rows[i].potId.Some? && rows[i].potId.value in valid
          && rows[i].wheatSpikes == Some(valid[rows[i].potId.value]))
    && (forall i, j :: 0 <= i < j < |rows| ==> rows[i].potId != rows[j].potId)
    && (forall k :: k in valid ==> exists i :: 0 <= i < |rows| && rows[i].potId == Some(k))
  }

  /** Writing the row of one more valid pot keeps the rows in step with the entries. */
  lemma AddPotRow(rows: seq<PotRow>, sessionId: int, valid: map<string, int>, potId: string, spikeCount: int)
    requires RowsMatch(rows, sessionId, valid)
    requires potId !in valid
    ensures RowsMatch(rows + [PotRow(sessionId, Some(potId), Some(spikeCount))], sessionId, valid[potId := spikeCount])
  {
    var row := PotRow(sessionId, Some(potId), Some(spikeCount));
    var rows' := rows + [row];
    var valid' := valid[potId := spikeCount];
    assert |rows'| == |valid'.Keys| by {
      assert valid'.Keys == valid.Keys + {potId};
    }
    assert forall i :: 0 <= i < |rows'| ==>
             && rows'[i].sessionId == sessionId
             && rows'[i].potId.Some? && rows'[i].potId.value in valid'
             && rows'[i].wheatSpikes == Some(valid'[rows'[i].potId.value]) by {
      forall i | 0 <= i < |rows'|
        ensures rows'[i].potId.Some? && rows'[i].potId.value in valid'
        ensures rows'[i].wheatSpikes == Some(valid'[rows'[i].potId.value])
      {
        if i < |rows| {
          assert rows'[i] == rows[i];
        }
      }
    }
    assert forall i, j :: 0 <= i < j < |rows'| ==> rows'[i].potId != rows'[j].potId by {
      forall i, j | 0 <= i < j < |rows'|
        ensures rows'[i].potId != rows'[j].potId
      {
        assert rows'[i] == rows[i];
      }
    }
    assert forall k :: k in valid' ==> exists i :: 0 <= i < |rows'| && rows'[i].potId == Some(k) by {
      forall k | k in valid'
        ensures exists i :: 0 <= i < |rows'| && rows'[i].potId == Some(k)
      {
        if k != potId {
          var i :| 0 <= i < |rows| && rows[i].potId == Some(k);
          assert rows'[i].potId == Some(k);
        } else {
          assert rows'[|rows|].potId == Some(k);
        }
      }
    }
  }

  /** saveObjectCountsToDatabase (lines 278-334). The pots are visited in the
      HashMap's order, which the model leaves open. */
  method SaveObjectCounts(analyser: Option<FullScreenAnalyse>, sessionId: int, currentTime: string)
    returns (outcome: SaveOutcome)
    ensures analyser.None? <==> outcome.NothingSaved?
    ensures outcome.Saved? ==> outcome.completedAt == currentTime
    ensures outcome.Saved? && ValidCounts(analyser.value.spikePerPot) == map[] ==>
              outcome.rows == [PotRow(sessionId, None, None)]
    ensures outcome.Saved? && ValidCounts(analyser.value.spikePerPot) != map[] ==>
              RowsMatch(outcome.rows, sessionId, ValidCounts(analyser.value.spikePerPot))
  {
    if analyser.None? {
      return NothingSaved;
    }
    var spikePerPot := analyser.value.spikePerPot;
    var validCounts: map<string, int> := map[];
    var rows: seq<PotRow> := [];
    var unvisited := spikePerPot.Keys;
    while unvisited != {}
      invariant unvisited <= spikePerPot.Keys
      invariant forall k :: k in validCounts <==>
                  k in spikePerPot && k !in unvisited && spikePerPot[k] >= 0 && k != "Pot0"
      invariant forall k :: k in validCounts ==> validCounts[k] == spikePerPot[k]
      invariant RowsMatch(rows, sessionId, validCounts)
      decreases |unvisited|
    {
      EmptyIfNoElement(unvisited);
      var potId :| potId in unvisited;
      var spikeCount := spikePerPot[potId];
      if spikeCount >= 0 && potId != "Pot0" {
        AddPotRow(rows, sessionId, validCounts, potId, spikeCount);
        validCounts := validCounts[potId := spikeCount];
        rows := rows + [PotRow(sessionId, Some(potId), Some(spikeCount))];
      }
      unvisited := unvisited - {potId};
    }
    assert validCounts == ValidCounts(spikePerPot);
    if validCounts == map[] {
      rows := [PotRow(sessionId, None, None)];
    }
    outcome := Saved(rows, currentTime);
  }

  /** Only pots the tracker opened after the first are ever saved, and a pot whose
      record holds nothing but the -1 marker of an empty frame is not. */
  lemma SavedPotsWereOpened(s: TrackerState)
    requires Inv(s)
    ensures forall k :: k in ValidCounts(s.spikePerPot) ==>
              exists n: nat :: 1 <= n <= s.nextPotId && k == PotKey(n)
    ensures forall k :: k in ValidCounts(s.spikePerPot) ==> s.spikePerPotSet[k] != {-1}
  {
    forall k | k in ValidCounts(s.spikePerPot)
      ensures exists n: nat :: 1 <= n <= s.nextPotId && k == PotKey(n)
      ensures s.spikePerPotSet[k] != {-1}
    {
      assert k in PotKeys(s.nextPotId);
      var n: nat :| n <= s.nextPotId && k == PotKey(n);
      assert PotKey(0) == "Pot0";
    }
  }
}
