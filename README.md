# WheatSpikeSense core, modelled in Dafny

WheatSpikeSense is an Android app that counts wheat spikes in pots seen through the
phone camera. A YOLOv5 TFLite model scores every frame. This project models the
logic around that model and proves properties of it:

- **Detector post-processing** (`Yolov5TFLiteDetector`). The flat output tensor of
  25200 rows × 7 columns is decoded into candidate recognitions. Two greedy
  non-maximum-suppression passes follow: one per class, then one across classes at
  0.70. The survivors are then named from the label list. This is in
  `geometry.dfy`, `decoding.dfy`, `suppression.dfy` and `detector.dfy`.
- **The pot/spike episode tracker** (`FullScreenAnalyse`). Each frame's
  recognitions are tallied per label. An empty frame arms the tracker, and the next
  frame showing a pot opens a new `Pot<n>` entry. Positive spike counts are
  recorded in the current pot's set, and the pot publishes the largest value
  recorded. This is in `tracker.dfy`.
- **The detection screen** (`DetectActivity`). It covers the rotation mapping, the
  clamped threshold buttons, the numbering of a new session, and the potData rows
  written when a session is saved. This is in `detect_activity.dfy`.
- **Password hashing and comparison** (`SecurityUtil`). It covers lowercase hex
  encoding of a digest and the constant-time string comparison. This is in
  `security.dfy`.
- **CSV export** (`SaveDataActivity`). It covers the header, one line per row with
  `NULL` for missing values, the file name, and the signed-in guard. This is in
  `savedata.dfy`.
- **The chart screen** (`VisualizationActivity`). It covers grouping the query rows
  by session and pot, the sorted set of pot ids, the per-session bar arrays, and the
  session-range slider decisions. This is in `visualization.dfy`.
- **Form validation** (`SignupActivity`, `EditProfileActivity`). Each form runs an
  ordered chain of checks over trimmed inputs in which the first failure wins.
  Editing also checks the old password and updates the stored preferences only on
  success. This is in `signup.dfy` and `editprofile.dfy`.
- **Shared Java library behaviour.** This is in `common.dfy`: `String.trim`,
  `Integer.toString`, `Map.getOrDefault`, and the maximum of a set.

How the Java code becomes Dafny:

- Code that changes state step by step is a method with loops and invariants. This
  covers decoding, suppression, label resolution, tallying, hex encoding,
  `slowEquals`, CSV writing, the chart pivot and the save loop.
- Objects whose fields change are classes: `Yolov5TFLiteDetector`,
  `FullScreenAnalyse` and the preferences store.
- Each method is proved against a specification function or predicate. Lemmas
  state the properties of those functions.
- Foreign calls are parameters:
  - SHA-256 is `sha256`;
  - `Patterns.EMAIL_ADDRESS` is `emailPattern`;
  - the database lookups are `userExists`, `getUserPassword` and `updateUser`;
  - MediaStore file creation is `fileCreated`;
  - the clock is a timestamp string.
- SQL query results are sequences of rows given as input.

Where the code and its documentation differ, the model follows the code:

- `boxIou` answers 1, not 0, when the union is not positive.
- A box survives suppression only when its IoU with the kept box is strictly below
  the threshold.
- The tracker is the set-based version with its `-1` marker for empty frames. The
  published count of a pot is the maximum of its set.

## Model

Source paths are under `app/src/main/java/com/example/detectify/`, written in full below.

| member | source | states |
|---|---|---|
| Geometry.Intersection | app/src/main/java/com/example/detectify/Detector/Yolov5TFLiteDetector.java:339-350 | the overlap area is never negative, and is 0 when the overlap width or height is negative |
| Geometry.IouSymmetric | app/src/main/java/com/example/detectify/Detector/Yolov5TFLiteDetector.java:332-356 | intersection, union and IoU do not depend on the order of the two boxes |
| Geometry.IntersectionWithinEach | app/src/main/java/com/example/detectify/Detector/Yolov5TFLiteDetector.java:339-350 | for boxes with ordered corners the overlap is no larger than either box's area |
| Geometry.IouInUnitInterval | app/src/main/java/com/example/detectify/Detector/Yolov5TFLiteDetector.java:332-356 | for boxes with ordered corners IoU lies in [0, 1] |
| Geometry.IouSelf | app/src/main/java/com/example/detectify/Detector/Yolov5TFLiteDetector.java:332-356 | a box with positive area has IoU 1 with itself |
| Geometry.ZeroAreaBoxesFullyOverlap | app/src/main/java/com/example/detectify/Detector/Yolov5TFLiteDetector.java:332-336 | two boxes without area have IoU 1 wherever they lie, because a union that is not positive answers 1 |
| Geometry.SeparatedBoxesDoNotOverlap | app/src/main/java/com/example/detectify/Detector/Yolov5TFLiteDetector.java:332-350 | boxes apart on one axis, with a positive union, have IoU 0 |
| Decoding.JavaIntCast | app/src/main/java/com/example/detectify/Detector/Yolov5TFLiteDetector.java:190-193 | the (int) cast stays in the int range, rounds toward zero (never past the value, less than 1 away inside the range) and keeps the sign |
| Decoding.DecodeBox | app/src/main/java/com/example/detectify/Detector/Yolov5TFLiteDetector.java:185-193 | the decoded corners are clamped to the 640 × 640 input: left, top ≥ 0, right ≤ 640, bottom ≤ 640 |
| Decoding.ScanBestIsFirstPositiveMax | app/src/main/java/com/example/detectify/Detector/Yolov5TFLiteDetector.java:199-206 | after any prefix of the scan, the score is at least every score seen; the label is the first index with the strictly greatest positive score; both are 0 when no score is positive |
| Decoding.BestClassIsFirstPositiveMax | app/src/main/java/com/example/detectify/Detector/Yolov5TFLiteDetector.java:199-206 | over all class scores, the label is the first index holding the strictly greatest positive score, or (0, 0) when none is positive |
| Decoding.ArgMaxClass | app/src/main/java/com/example/detectify/Detector/Yolov5TFLiteDetector.java:198-206 | the running-maximum loop returns the first strictly greatest positive score and its index |
| Decoding.ClassScores | app/src/main/java/com/example/detectify/Detector/Yolov5TFLiteDetector.java:195 | a row's class-score slice holds OUTPUT_SIZE[2] − 5 = 2 scores |
| Decoding.DecodeRow | app/src/main/java/com/example/detectify/Detector/Yolov5TFLiteDetector.java:183-213 | row i, read at stride 7i, yields objectness equal to column 4, an empty label name, a class id below 2 that is the first positive maximum, and corners inside the image |
| Decoding.Decode | app/src/main/java/com/example/detectify/Detector/Yolov5TFLiteDetector.java:182-214 | exactly 25200 recognitions, the i-th decoded from row i, none dropped |
| Decoding.DecodeRowExample | app/src/main/java/com/example/detectify/Detector/Yolov5TFLiteDetector.java:183-213 | row (0.5, 0.5, 0.2, 0.2, 0.9, 0.1, 0.8) decodes to box (256, 256, 384, 384), class 1, score 0.8, objectness 0.9 |
| Suppression.FilterCount | app/src/main/java/com/example/detectify/Detector/Yolov5TFLiteDetector.java:258-264 | filtering keeps every copy of a passing element and no copy of any other |
| Suppression.FilterContents | app/src/main/java/com/example/detectify/Detector/Yolov5TFLiteDetector.java:258-264 | the filtered queue is a sub-multiset of its input and holds exactly the input's passing elements |
| Suppression.Retain | app/src/main/java/com/example/detectify/Detector/Yolov5TFLiteDetector.java:258-264 | the candidate scan keeps exactly the passing elements, in order |
| Suppression.HeadExists | app/src/main/java/com/example/detectify/Detector/Yolov5TFLiteDetector.java:267-270 | a non-empty queue has a head whose confidence is at least every other's |
| Suppression.SurvivorsContents | app/src/main/java/com/example/detectify/Detector/Yolov5TFLiteDetector.java:273-280 | what a round puts back is exactly the rest of the queue overlapping the head by less than the threshold, and the queue shrinks |
| Suppression.KeptStaysOrdered | app/src/main/java/com/example/detectify/Detector/Yolov5TFLiteDetector.java:270-272 | appending a head that every kept box outranks and does not overlap keeps the output ordered and separated |
| Suppression.GreedyStep | app/src/main/java/com/example/detectify/Detector/Yolov5TFLiteDetector.java:267-281 | one round keeps the invariant: output and queue come from the pool, the output is ordered and separated, the queue is dominated by the output, every candidate is kept, queued or suppressed |
| Suppression.SuppressGreedy | app/src/main/java/com/example/detectify/Detector/Yolov5TFLiteDetector.java:267-281 | the greedy loop returns a sub-multiset of its pool, most confident first, with no pair overlapping by the threshold or more; every dropped candidate is overlapped by the threshold or more by a kept one at least as confident |
| Suppression.AppendClass | app/src/main/java/com/example/detectify/Detector/Yolov5TFLiteDetector.java:244-282 | appending the survivors of the next class keeps class ids ascending and each class ordered and separated |
| Suppression.Nms | app/src/main/java/com/example/detectify/Detector/Yolov5TFLiteDetector.java:240-284 | nms emits only recognitions from its input with class id below 2 and confidence above DETECT_THRESHOLD, classes ascending; within a class, most confident first and IoU below IOU_THRESHOLD; every dropped candidate was suppressed by a kept box of its class that is at least as confident |
| Suppression.NmsAllClass | app/src/main/java/com/example/detectify/Detector/Yolov5TFLiteDetector.java:293-330 | nmsAllClass emits a sub-multiset of its input above DETECT_THRESHOLD, most confident first, no two boxes of any classes with IoU ≥ 0.70; every dropped candidate was suppressed by a kept one at least as confident |
| Detector.ResolveLabels | app/src/main/java/com/example/detectify/Detector/Yolov5TFLiteDetector.java:225-229 | each recognition gets labels[labelId] and nothing else changes; it fails exactly when a class id has no label |
| Detector.Yolov5TFLiteDetector.constructor | app/src/main/java/com/example/detectify/Detector/Yolov5TFLiteDetector.java:47-48 | both thresholds start at 0.5, and the labels are those loaded |
| Detector.Yolov5TFLiteDetector.SetDetectThreshold | app/src/main/java/com/example/detectify/Detector/Yolov5TFLiteDetector.java:98-100 | sets DETECT_THRESHOLD only |
| Detector.Yolov5TFLiteDetector.SetIouThreshold | app/src/main/java/com/example/detectify/Detector/Yolov5TFLiteDetector.java:94-96 | sets IOU_THRESHOLD only |
| Detector.SurvivorsAreDecodedRows | app/src/main/java/com/example/detectify/Detector/Yolov5TFLiteDetector.java:182-218 | whatever survives both suppression passes is a decoded row of the tensor with class id below 2 and confidence above DETECT_THRESHOLD |
| Detector.TwoPassesKeepTheMostConfident | app/src/main/java/com/example/detectify/Detector/Yolov5TFLiteDetector.java:216-218 | for every row above DETECT_THRESHOLD, the output of nms followed by nmsAllClass holds a recognition at least as confident |
| Detector.NamingKeepsTheOutput | app/src/main/java/com/example/detectify/Detector/Yolov5TFLiteDetector.java:225-229 | naming the survivors keeps their order and separation; each named recognition is its decoded row with labels[labelId] |
| Detector.OutputAnswersEveryPassingRow | app/src/main/java/com/example/detectify/Detector/Yolov5TFLiteDetector.java:180-231 | each row above DETECT_THRESHOLD is outranked by some named output, and the output is empty exactly when no row is above DETECT_THRESHOLD |
| Detector.Yolov5TFLiteDetector.Detect | app/src/main/java/com/example/detectify/Detector/Yolov5TFLiteDetector.java:180-231 | every returned recognition is a decoded row above DETECT_THRESHOLD, named labels[labelId]; the result is most confident first with no pair at IoU ≥ 0.70; every row above the threshold is matched by a returned recognition at least as confident, so the result is empty exactly when no row passes; it succeeds whenever the label list covers both classes |
| Tracker.PotKeyInjective | app/src/main/java/com/example/detectify/CameraActivity/FullScreenAnalyse.java:196-198 | different pot ids give different "Pot" + n keys |
| Tracker.Initial | app/src/main/java/com/example/detectify/CameraActivity/FullScreenAnalyse.java:56-80 | the starting state satisfies the tracker invariant: both maps hold exactly Pot0, and its count is the maximum of its set or 0 |
| Tracker.RecordFrame | app/src/main/java/com/example/detectify/CameraActivity/FullScreenAnalyse.java:188-205 | recording a frame advances the pot id by at most one and changes no entry other than the current pot's |
| Tracker.PublishKeepsInv | app/src/main/java/com/example/detectify/CameraActivity/FullScreenAnalyse.java:207-211 | publishing the current pot's maximum restores the invariant |
| Tracker.Step | app/src/main/java/com/example/detectify/CameraActivity/FullScreenAnalyse.java:188-211 | a frame keeps the invariant: the keys of both maps are exactly Pot0..Pot{nextPotId}, and each count is the maximum of its set or 0 |
| Tracker.StepAdvancesOnlyOnOpening | app/src/main/java/com/example/detectify/CameraActivity/FullScreenAnalyse.java:194-200 | nextPotId rises by exactly 1 on a frame with a pot while armed, and is unchanged otherwise |
| Tracker.StepOnEmptyFrame | app/src/main/java/com/example/detectify/CameraActivity/FullScreenAnalyse.java:188-192 | an empty frame arms the tracker, keeps the pot id, and adds −1 only to a set holding at most one value |
| Tracker.StepOnPotFrame | app/src/main/java/com/example/detectify/CameraActivity/FullScreenAnalyse.java:194-203 | a frame with a pot disarms the tracker; the current set is fresh if the tracker was armed, and gains the spike count only when that count is positive |
| Tracker.StepIgnoresFrameWithoutPot | app/src/main/java/com/example/detectify/CameraActivity/FullScreenAnalyse.java:193-205 | a non-empty frame without a pot, even one with spikes, leaves the whole state unchanged |
| Tracker.StepFreezesEarlierPots | app/src/main/java/com/example/detectify/CameraActivity/FullScreenAnalyse.java:207-211 | entries of pots before the current one are never modified |
| Tracker.StepPublishesMax | app/src/main/java/com/example/detectify/CameraActivity/FullScreenAnalyse.java:207-211 | after a frame the current pot's count is the maximum of its set, or 0 when the set is empty |
| Tracker.Run | app/src/main/java/com/example/detectify/CameraActivity/FullScreenAnalyse.java:188-211 | over any sequence of frames the invariant holds and nextPotId never decreases |
| Tracker.TwoEpisodes | app/src/main/java/com/example/detectify/CameraActivity/FullScreenAnalyse.java:188-211 | the frames (empty, pot, pot+3, pot+5, empty, pot, pot+2) end with counts Pot0 = −1, Pot1 = 5, Pot2 = 2 |
| Tracker.FirstFrameStaysOnPotZero | app/src/main/java/com/example/detectify/CameraActivity/FullScreenAnalyse.java:194-203 | a first frame showing a pot with 4 spikes records 4 in Pot0 and opens no new pot |
| Tracker.TallyCountsOccurrences | app/src/main/java/com/example/detectify/CameraActivity/FullScreenAnalyse.java:173-185 | objectCounts holds exactly the frame's labels, each counted by its number of recognitions, and is empty iff the frame has none |
| Tracker.CountObjects | app/src/main/java/com/example/detectify/CameraActivity/FullScreenAnalyse.java:173-185 | the counting loop builds that tally |
| Tracker.CountsText | app/src/main/java/com/example/detectify/CameraActivity/FullScreenAnalyse.java:234-244 | the status line starts with "Pot " and ends with " wheat spikes" |
| Tracker.CountsTextInjective | app/src/main/java/com/example/detectify/CameraActivity/FullScreenAnalyse.java:238-241 | the status line determines the pot id and the count it shows |
| Tracker.FullScreenAnalyse.constructor | app/src/main/java/com/example/detectify/CameraActivity/FullScreenAnalyse.java:56-80 | the fields start at nextPotId 0, disarmed, with Pot0 holding an empty set and count 0 |
| Tracker.FullScreenAnalyse.UpdateTracker | app/src/main/java/com/example/detectify/CameraActivity/FullScreenAnalyse.java:188-211 | the in-place field updates produce exactly the next tracker state, and keep the invariant |
| Tracker.FullScreenAnalyse.Analyze | app/src/main/java/com/example/detectify/CameraActivity/FullScreenAnalyse.java:172-211 | counting a frame's recognitions and updating the tracker is one tracker step on the tally |
| Tracker.FullScreenAnalyse.GenerateCountsText | app/src/main/java/com/example/detectify/CameraActivity/FullScreenAnalyse.java:234-244 | the status line shows the current pot and its published count |
| DetectScreen.ScreenOrientation | app/src/main/java/com/example/detectify/DashboardFeaturesActivity/DetectActivity.java:71-82 | rotations 90, 180 and 270 map to their degrees, and every other code to 0 |
| DetectScreen.ThresholdButtons | app/src/main/java/com/example/detectify/DashboardFeaturesActivity/DetectActivity.java:164-172 | increment never exceeds 1 and decrement never goes below 0; each moves by at most 0.1 in its own direction; within [0, 0.9] decrement undoes increment |
| DetectScreen.IncrementDetectThreshold | app/src/main/java/com/example/detectify/DashboardFeaturesActivity/DetectActivity.java:161-167 | DETECT_THRESHOLD becomes min(t + 0.1, 1); nothing else on the detector changes |
| DetectScreen.DecrementDetectThreshold | app/src/main/java/com/example/detectify/DashboardFeaturesActivity/DetectActivity.java:169-175 | DETECT_THRESHOLD becomes max(t − 0.1, 0); nothing else on the detector changes |
| DetectScreen.NewSession | app/src/main/java/com/example/detectify/DashboardFeaturesActivity/DetectActivity.java:257-276 | the new session is "active", numbered 1 for a user without sessions and otherwise one past the user's largest session number |
| DetectScreen.ValidCounts | app/src/main/java/com/example/detectify/DashboardFeaturesActivity/DetectActivity.java:289-295 | the saved entries are exactly those with a count ≥ 0 and a key other than Pot0, with their counts |
| DetectScreen.AddPotRow | app/src/main/java/com/example/detectify/DashboardFeaturesActivity/DetectActivity.java:297-303 | writing the row of one more valid pot keeps exactly one (session, pot, count) row per valid entry |
| DetectScreen.SaveObjectCounts | app/src/main/java/com/example/detectify/DashboardFeaturesActivity/DetectActivity.java:278-334 | nothing is saved without an analyser; otherwise exactly one row per valid pot, or a single NULL row when there is none, and the session is completed at the given time |
| DetectScreen.SavedPotsWereOpened | app/src/main/java/com/example/detectify/DashboardFeaturesActivity/DetectActivity.java:289-295 | a saved pot is one the tracker opened after Pot0, and never one holding only the −1 marker |
| Security.Unsigned | app/src/main/java/com/example/detectify/Utility/SecurityUtil.java:24 | 0xff & b is below 256 and congruent to b modulo 256 |
| Security.ToHexString | app/src/main/java/com/example/detectify/Utility/SecurityUtil.java:24 | Integer.toHexString of a byte value has 1 digit exactly when the value is below 16, and otherwise 2 |
| Security.PaddedHexIsPair | app/src/main/java/com/example/detectify/Utility/SecurityUtil.java:24-26 | padding to width 2 gives the two lowercase hex digits of the unsigned byte |
| Security.BytesToHex | app/src/main/java/com/example/detectify/Utility/SecurityUtil.java:21-29 | the loop builds the hex encoding of the digest |
| Security.HexEncodeShape | app/src/main/java/com/example/detectify/Utility/SecurityUtil.java:21-29 | the encoding has two characters per byte, all from 0-9 and a-f |
| Security.PairValue | app/src/main/java/com/example/detectify/Utility/SecurityUtil.java:24-26 | reading a byte's two hex digits back gives the byte |
| Security.HexDecodeInvertsHexEncode | app/src/main/java/com/example/detectify/Utility/SecurityUtil.java:21-29 | decoding consecutive pairs recovers the bytes |
| Security.HexEncodeInjective | app/src/main/java/com/example/detectify/Utility/SecurityUtil.java:21-29 | different digests never encode to the same string |
| Security.XorZero | app/src/main/java/com/example/detectify/Utility/SecurityUtil.java:33-35 | x ^ y is 0 exactly when x == y |
| Security.OrZero | app/src/main/java/com/example/detectify/Utility/SecurityUtil.java:35 | x \| y is 0 exactly when both are 0 |
| Security.SlowEquals | app/src/main/java/com/example/detectify/Utility/SecurityUtil.java:32-38 | true exactly when the strings have equal length and equal characters at every index, so false whenever the lengths differ, and symmetric |
| Security.HashPassword | app/src/main/java/com/example/detectify/Utility/SecurityUtil.java:9-18 | the stored hash is the hex encoding of the digest: twice its length, lowercase hex only |
| SaveData.HeaderHasSevenColumns | app/src/main/java/com/example/detectify/DashboardFeaturesActivity/SaveDataActivity.java:115 | the header ends in a newline and splits on commas into exactly the seven column names |
| SaveData.HeaderIsOneLine | app/src/main/java/com/example/detectify/DashboardFeaturesActivity/SaveDataActivity.java:115 | the header holds exactly one newline |
| SaveData.SplitInvertsJoin | app/src/main/java/com/example/detectify/DashboardFeaturesActivity/SaveDataActivity.java:128-134 | splitting on the separator undoes joining parts that do not contain it |
| SaveData.Fields | app/src/main/java/com/example/detectify/DashboardFeaturesActivity/SaveDataActivity.java:128-134 | a row has one column text per header column |
| SaveData.FormatRowIsJoinedFields | app/src/main/java/com/example/detectify/DashboardFeaturesActivity/SaveDataActivity.java:128-134 | each line is the seven column texts joined by commas, with NULL for missing values, plus one newline |
| SaveData.FieldsAvoid | app/src/main/java/com/example/detectify/DashboardFeaturesActivity/SaveDataActivity.java:128-134 | a character that is not a digit, '-' or a letter of NULL, and is in no text value, is in no column text |
| SaveData.RowSplitsIntoSevenFields | app/src/main/java/com/example/detectify/DashboardFeaturesActivity/SaveDataActivity.java:128-134 | when no value holds a comma, a line splits back into exactly its seven fields |
| SaveData.OneLinePerRow | app/src/main/java/com/example/detectify/DashboardFeaturesActivity/SaveDataActivity.java:128-134 | when no value holds a newline, a line holds exactly one newline |
| SaveData.WriteCsvData | app/src/main/java/com/example/detectify/DashboardFeaturesActivity/SaveDataActivity.java:101-141 | the written text is the header followed by each cursor row's line, in order |
| SaveData.CsvLineCount | app/src/main/java/com/example/detectify/DashboardFeaturesActivity/SaveDataActivity.java:113-137 | when no value holds a newline, the file has one line more than there are rows |
| SaveData.FormattedEmail | app/src/main/java/com/example/detectify/DashboardFeaturesActivity/SaveDataActivity.java:66 | every '.' becomes '_' and every other character stays, so the result has no '.' |
| SaveData.FormattedEmailIdempotent | app/src/main/java/com/example/detectify/DashboardFeaturesActivity/SaveDataActivity.java:66 | formatting twice equals formatting once |
| SaveData.FileName | app/src/main/java/com/example/detectify/DashboardFeaturesActivity/SaveDataActivity.java:67 | the file name ends in ".csv" |
| SaveData.FileNameIdentifiesUser | app/src/main/java/com/example/detectify/DashboardFeaturesActivity/SaveDataActivity.java:67 | two exports with the same file name belong to the same user id |
| SaveData.ExportDataInternal | app/src/main/java/com/example/detectify/DashboardFeaturesActivity/SaveDataActivity.java:53-99 | stops with "user data not found" exactly when the id is −1 or the e-mail is missing, and fails exactly when the file cannot be created; otherwise writes the full CSV text under the formatted file name |
| Visualization.LessIrreflexive | app/src/main/java/com/example/detectify/DashboardFeaturesActivity/VisualizationActivity.java:220 | String order: no string precedes itself |
| Visualization.LessTransitive | app/src/main/java/com/example/detectify/DashboardFeaturesActivity/VisualizationActivity.java:220 | String order is transitive |
| Visualization.LessTotal | app/src/main/java/com/example/detectify/DashboardFeaturesActivity/VisualizationActivity.java:220 | any two different strings are ordered one way |
| Visualization.LessAsymmetric | app/src/main/java/com/example/detectify/DashboardFeaturesActivity/VisualizationActivity.java:220 | never both ways |
| Visualization.TextOrderOfPotIds | app/src/main/java/com/example/detectify/DashboardFeaturesActivity/VisualizationActivity.java:220 | "Pot10" sorts before "Pot2" |
| Visualization.Insert | app/src/main/java/com/example/detectify/DashboardFeaturesActivity/VisualizationActivity.java:221-227 | TreeSet.add keeps the ids strictly ascending, and the elements become the old ones plus the new id |
| Visualization.FetchData | app/src/main/java/com/example/detectify/DashboardFeaturesActivity/VisualizationActivity.java:162-171 | the cursor loop builds the grouping of the rows by session and pot |
| Visualization.GroupedStep | app/src/main/java/com/example/detectify/DashboardFeaturesActivity/VisualizationActivity.java:166-170 | one more row adds or overwrites its own session and pot entry and nothing else |
| Visualization.GroupedKeysAt | app/src/main/java/com/example/detectify/DashboardFeaturesActivity/VisualizationActivity.java:166-170 | session s has an entry for pot p exactly when some row carries both |
| Visualization.GroupedKeys | app/src/main/java/com/example/detectify/DashboardFeaturesActivity/VisualizationActivity.java:166-170 | the same for every session and pot |
| Visualization.GroupedLastRowWins | app/src/main/java/com/example/detectify/DashboardFeaturesActivity/VisualizationActivity.java:170 | the value stored for a session and pot is that of the last row carrying them |
| Visualization.CollectPotIds | app/src/main/java/com/example/detectify/DashboardFeaturesActivity/VisualizationActivity.java:220-230 | the pot ids are strictly ascending in String order and are exactly the non-null ids across all sessions |
| Visualization.PivotSession | app/src/main/java/com/example/detectify/DashboardFeaturesActivity/VisualizationActivity.java:241-249 | a fresh array with one slot per pot id, slot j holding the session's value for pot j, or 0 when absent |
| Visualization.ChartStep | app/src/main/java/com/example/detectify/DashboardFeaturesActivity/VisualizationActivity.java:238-253 | adding one more session's bar and label keeps the loop's account |
| Visualization.ChartStepBars | app/src/main/java/com/example/detectify/DashboardFeaturesActivity/VisualizationActivity.java:241-252 | every bar so far is its session's pivot, and every label is "Session n" for its bar |
| Visualization.ChartStepDistinct | app/src/main/java/com/example/detectify/DashboardFeaturesActivity/VisualizationActivity.java:238-251 | no session gets two bars |
| Visualization.ChartStepCovers | app/src/main/java/com/example/detectify/DashboardFeaturesActivity/VisualizationActivity.java:238-251 | every session visited so far has a bar |
| Visualization.UpdateChart | app/src/main/java/com/example/detectify/DashboardFeaturesActivity/VisualizationActivity.java:213-254 | empty data gives no chart; otherwise the pot ids are sorted and complete, and each session gets exactly one bar (its pivot) and one "Session n" label |
| Visualization.DecideRange | app/src/main/java/com/example/detectify/DashboardFeaturesActivity/VisualizationActivity.java:68-117 | stop when not signed in; "No sessions" exactly when min = max = 0; the slider is disabled exactly when min = max and its range set exactly when min < max; the text is "Session min - max" |
| Visualization.RangeOfSessionNumbers | app/src/main/java/com/example/detectify/DashboardFeaturesActivity/VisualizationActivity.java:90-114 | a signed-in user with sessions numbered from 1 always gets a range, and the slider range is set exactly when there are two different session numbers |
| Common.Decimal | app/src/main/java/com/example/detectify/CameraActivity/FullScreenAnalyse.java:197 | a natural number prints as at least one decimal digit, and as two or more from 10 on |
| Common.ParseDecimalInvertsDecimal | app/src/main/java/com/example/detectify/CameraActivity/FullScreenAnalyse.java:197 | reading the printed digits back gives the number |
| Common.DecimalInjective | app/src/main/java/com/example/detectify/CameraActivity/FullScreenAnalyse.java:197 | different numbers print differently |
| Common.IntToString | app/src/main/java/com/example/detectify/CameraActivity/FullScreenAnalyse.java:240 | an int prints as digits with a leading '-' exactly when it is negative |
| Common.IntToStringInjective | app/src/main/java/com/example/detectify/CameraActivity/FullScreenAnalyse.java:240 | different ints print differently |
| Common.MaxOrZero | app/src/main/java/com/example/detectify/CameraActivity/FullScreenAnalyse.java:208 | the stream maximum of a non-empty set is its largest element; orElse(0) gives 0 for the empty set |
| Common.Trim | app/src/main/java/com/example/detectify/UserActivity/SignupActivity.java:97-101 | trim returns the slice between the leading and trailing runs of characters at or below ' ', and its ends are above ' ' |
| Common.TrimEmptyIffBlank | app/src/main/java/com/example/detectify/UserActivity/SignupActivity.java:104-107 | a field trims to empty exactly when all its characters are at or below ' ' |
| Common.TrimIdempotent | app/src/main/java/com/example/detectify/UserActivity/SignupActivity.java:97-101 | trimming twice equals trimming once |
| Common.IsValidEmail | app/src/main/java/com/example/detectify/UserActivity/SignupActivity.java:190-192 | the empty address is never valid, and a valid one matches the pattern |
| Common.FirstFailingIndex | app/src/main/java/com/example/detectify/UserActivity/SignupActivity.java:104-129 | the position of the first failing check: every earlier check passes and the one there fails |
| Common.FirstFailing | app/src/main/java/com/example/detectify/UserActivity/SignupActivity.java:104-129 | none exactly when all checks pass; otherwise the first failing check |
| Signup.ValidateReportsFirstFailingCheck | app/src/main/java/com/example/detectify/UserActivity/SignupActivity.java:104-129 | the guard chain reports exactly the first failing check in the order first name, last name, e-mail empty, e-mail invalid, password, confirmation, mismatch |
| Signup.RegisterUser | app/src/main/java/com/example/detectify/UserActivity/SignupActivity.java:94-139 | rejected exactly when a check on the trimmed fields fails, with that check's error; "already exists" only after every check passes; a registered user carries the trimmed, non-empty fields with matching passwords and an unused valid address |
| Signup.EmptyFirstNameComesFirst | app/src/main/java/com/example/detectify/UserActivity/SignupActivity.java:104-107 | a blank first name is reported whatever the other fields hold |
| Signup.MismatchNeedsBothPasswords | app/src/main/java/com/example/detectify/UserActivity/SignupActivity.java:119-129 | a mismatch is reported exactly when the earlier fields pass and both passwords are non-empty and differ |
| Signup.PasswordsCompareTrimmed | app/src/main/java/com/example/detectify/UserActivity/SignupActivity.java:97-129 | " secret" and "secret " count as the same password |
| EditProfile.ValidateReportsFirstFailingCheck | app/src/main/java/com/example/detectify/DashboardFeaturesActivity/EditProfileActivity.java:89-114 | the guard chain reports exactly the first failing check in the order first name, last name, e-mail empty, e-mail invalid, old password, new password, mismatch |
| EditProfile.EmptyConfirmationIsMismatch | app/src/main/java/com/example/detectify/DashboardFeaturesActivity/EditProfileActivity.java:108-114 | an empty confirmation is not checked on its own; with a new password it fails as a mismatch |
| EditProfile.IsOldPasswordCorrect | app/src/main/java/com/example/detectify/DashboardFeaturesActivity/EditProfileActivity.java:149-161 | true exactly when a stored hash exists and equals the hex SHA-256 of the old password; false when none is stored |
| EditProfile.SaveUserData | app/src/main/java/com/example/detectify/DashboardFeaturesActivity/EditProfileActivity.java:79-141 | input errors come first, then the old-password check, then the update; the profile is updated exactly when every check passes and updateUser succeeds, and the outcome is UpdateFailed exactly when every check passes and updateUser fails; only on update do the stored names and e-mail change |

## Left out

- TFLite inference, image resizing, normalisation and quantisation, model and label loading, and the NNAPI/GPU delegates are not modelled. These are foreign library calls, so the output tensor and the label list are inputs.
- The camera path is not modelled: YUV conversion, bitmaps, the preview Matrix (including `mapRect` moving each location in place) and canvas drawing. These are foreign graphics code with floating point.
- The RxJava threading is not modelled. Frames are processed one after another.
- Floating point is modelled as exact `real` arithmetic. This covers confidences, IoU, the thresholds and their 0.1 steps, and chart totals, so float rounding and NaN are not modelled. The `(int)` casts of the box corners are modelled exactly: truncation and saturation.
- A `RectF` built from the int corners is an integer `Rect`.
- SHA-256 is the parameter `sha256`. `String.getBytes`'s charset is folded into it. The `NoSuchAlgorithmException` path that returns null is left out because SHA-256 is always available on Android.
- `Patterns.EMAIL_ADDRESS` is the parameter `emailPattern`.
- The SQLite schema, SQL strings and cursors are not modelled. Query results are row sequences or values given as input, and the SQL grouping and summing (`GROUP BY`, `SUM`, `MIN`, `MAX`, `IFNULL`) is not modelled beyond those inputs.
- Database writes become returned values: the new session row, the potData rows and the completion time.
- The sign-up insert and the AccountManager calls after the checks are not modelled. The model returns the `Registered` outcome with the fields sent to the database.
- The catch-all exception handlers in `registerUser` and around the CSV output stream are left out. These are I/O failures.
- MediaStore file creation is the boolean `fileCreated`. The Android version check is folded into it.
- The date formats and `Locale` digits of the timestamps are left out. The timestamps are given strings.
- SaveData.FileName: writes the user id with ASCII digits. `String.format("%d", …)` uses the default `Locale`'s digits, which differ in some locales (Arabic-Indic, for one); the model states the name for ASCII digits only.
- Toasts, `setError` messages and activity navigation are left out. They are UI; errors are datatype cases.
- `generateColors`/`blendColors` and the MPAndroidChart configuration are left out. They are float colour interpolation and a foreign UI library.
- CameraProcess, MainActivity, UserProfileActivity, DashboardActivity and LoginActivity are not part of this model. They are permissions, navigation, dialogs, a timer and database calls.
- `DatabaseHelper.slowEquals` is the same loop as `SecurityUtil.slowEquals` and is covered by `Security.SlowEquals`.
- Concurrent changes of `DETECT_THRESHOLD` from the UI thread during detection are not modelled. Each detection reads one threshold value.
- Detector.Yolov5TFLiteDetector.Detect: relates its output to the decoded rows, not to the intermediate list of the per-class pass. That pass's per-class ordering, separation and coverage are stated on `Suppression.Nms`.
- Suppression.SuppressGreedy: the PriorityQueue's internal order is not modelled. The head is any recognition of greatest confidence, and the other candidates are re-queued as a set, so ties between equally confident boxes are left open.
- DetectScreen.SaveObjectCounts: HashMap iteration order is not modelled. The rows' order is left open, and only the set of rows is stated.
- Visualization.UpdateChart: HashMap iteration order is not modelled. The order of the bars is left open, and only one bar and label per session is stated.
- Visualization.DecideRange: the RangeSlider's widget state and change listener are not modelled. Only the decisions and the text are.
- EditProfile.SaveUserData: the activity's `sharedPreferences` field and the `user_prefs` store read by `isOldPasswordCorrect` are modelled as one `Preferences` object.
