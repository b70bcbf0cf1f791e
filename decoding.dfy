/** Decoding of the YOLOv5 output tensor into candidate recognitions: the loop of
    Yolov5TFLiteDetector.detect that reads each row of the flattened
    [1, 25200, 7] output, turns centre and size into clamped integer corners and
    picks the class with the largest score. */
module Decoding {
  import opened Geometry

  /** INPUT_SIZE: the model looks at 640 x 640 images. */
  const INPUT_WIDTH: int := 640
  const INPUT_HEIGHT: int := 640

  /** OUTPUT_SIZE[1]: candidate rows per frame. */
  const NUM_ROWS: nat := 25200

  /** OUTPUT_SIZE[2]: x, y, w, h, objectness, then one score per class. */
  const ROW_SIZE: nat := 7

  /** OUTPUT_SIZE[2] - 5 classes (pot and wheat spike). */
  const NUM_CLASSES: nat := ROW_SIZE - 5

  const INT_MIN: int := -0x8000_0000
  const INT_MAX: int := 0x7fff_ffff

  /** A Recognition: class id, class name (empty until labels are resolved), best
      class score, objectness ("confidence") and the box in model-input pixels. */
  datatype Recognition = Recognition(
    labelId: int,
    labelName: string,
    labelScore: real,
    confidence: real,
    location: Rect)

  function RealMax(x: real, y: real): real
  {
    if x >= y then x else y
  }

  function RealMin(x: real, y: real): real
  {
    if x <= y then x else y
  }

  /** Java's (int) cast of a double: rounds toward zero and saturates at the int range. */
  function JavaIntCast(r: real): (i: int)
    ensures INT_MIN <= i <= INT_MAX
    ensures 0.0 <= r ==> 0 <= i && i as real <= r
    ensures r <= 0.0 ==> i <= 0 && r <= i as real
    ensures INT_MIN as real < r < INT_MAX as real ==> -1.0 < r - i as real < 1.0
  {
    if r >= INT_MAX as real then INT_MAX
    else if r <= INT_MIN as real then INT_MIN
    else if r >= 0.0 then r.Floor
    else -((-r).Floor)
  }

  /** Lines 186-193: scale the normalised centre and size to pixels, convert them to
      corners clamped to the input image, and cast each corner to int. */
  function DecodeBox(cx: real, cy: real, w: real, h: real): (box: Rect)
    ensures 0 <= box.left && 0 <= box.top
    ensures box.right <= INPUT_WIDTH && box.bottom <= INPUT_HEIGHT
  {
    var x := cx * INPUT_WIDTH as real;
    var y := cy * INPUT_HEIGHT as real;
    var pw := w * INPUT_WIDTH as real;
    var ph := h * INPUT_HEIGHT as real;
    Rect(
      JavaIntCast(RealMax(0.0, x - pw / 2.0)),
      JavaIntCast(RealMax(0.0, y - ph / 2.0)),
      JavaIntCast(RealMin(INPUT_WIDTH as real, x + pw / 2.0)),
      JavaIntCast(RealMin(INPUT_HEIGHT as real, y + ph / 2.0)))
  }

  /** (labelId, maxLabelScores) after the running-maximum scan of lines 199-206 has
      looked at the first n class scores. */
  function ScanBest(scores: seq<real>, n: nat): (nat, real)
    requires n <= |scores|
  {
    if n == 0 then (0, 0.0)
    else
      var (id, m) := ScanBest(scores, n - 1);
      if scores[n - 1] > m then (n - 1, scores[n - 1]) else (id, m)
  }

  /** The scan over all class scores. */
  function BestClass(scores: seq<real>): (nat, real)
  {
    ScanBest(scores, |scores|)
  }

  /** The label is the first index holding the strictly greatest positive score, and
      the score is that maximum; when no score is positive both are 0. */
  predicate IsFirstPositiveMax(scores: seq<real>, labelId: nat, score: real)
  {
    && (forall j :: 0 <= j < |scores| ==> scores[j] <= score)
    && ((exists j :: 0 <= j < |scores| && scores[j] > 0.0) ==>
          labelId < |scores| && scores[labelId] == score &&
          forall j :: 0 <= j < labelId ==> scores[j] < score)
    && ((forall j :: 0 <= j < |scores| ==> scores[j] <= 0.0) ==> labelId == 0 && score == 0.0)
  }

  lemma {:induction false} ScanBestIsFirstPositiveMax(scores: seq<real>, n: nat)
    requires n <= |scores|
    ensures IsFirstPositiveMax(scores[..n], ScanBest(scores, n).0, ScanBest(scores, n).1)
  {
    if n > 0 {
      ScanBestIsFirstPositiveMax(scores, n - 1);
      var (id, m) := ScanBest(scores, n - 1);
      var prefix := scores[..n - 1];
      assert scores[..n] == prefix + [scores[n - 1]];
      if scores[n - 1] > m {
        forall j | 0 <= j < n - 1
          ensures scores[j] < scores[n - 1]
        {
          assert prefix[j] == scores[j];
        }
      } else if exists j :: 0 <= j < n - 1 && scores[j] > 0.0 {
        var j :| 0 <= j < n - 1 && scores[j] > 0.0;
        assert prefix[j] > 0.0;
      } else {
        assert forall j :: 0 <= j < n - 1 ==> prefix[j] <= 0.0;
      }
    }
  }

  /** BestClass returns the first strictly greatest positive score and its index. */
  lemma BestClassIsFirstPositiveMax(scores: seq<real>)
    ensures IsFirstPositiveMax(scores, BestClass(scores).0, BestClass(scores).1)
  {
    ScanBestIsFirstPositiveMax(scores, |scores|);
    assert scores[..|scores|] == scores;
  }

  /** The class-score loop of lines 199-206. */
  method ArgMaxClass(classScores: seq<real>) returns (labelId: nat, maxLabelScores: real)
    ensures (labelId, maxLabelScores) == BestClass(classScores)
    ensures IsFirstPositiveMax(classScores, labelId, maxLabelScores)
  {
    labelId := 0;
    maxLabelScores := 0.0;
    for j := 0 to |classScores|
      invariant (labelId, maxLabelScores) == ScanBest(classScores, j)
    {
      if classScores[j] > maxLabelScores {
        maxLabelScores := classScores[j];
        labelId := j;
      }
    }
    BestClassIsFirstPositiveMax(classScores);
  }

  /** The flattened output holds exactly NUM_ROWS rows of ROW_SIZE floats. */
  predicate IsOutputTensor(tensor: seq<real>)
  {
    |tensor| == NUM_ROWS * ROW_SIZE
  }

  /** The class scores of row i: columns 5 .. ROW_SIZE - 1 (line 195). */
  function ClassScores(tensor: seq<real>, i: nat): (scores: seq<real>)
    requires IsOutputTensor(tensor) && i < NUM_ROWS
    ensures |scores| == NUM_CLASSES
  {
    tensor[i * ROW_SIZE + 5 .. i * ROW_SIZE + ROW_SIZE]
  }

  /** The recognition that lines 184-213 build from row i, read at stride i * ROW_SIZE. */
  function DecodeRow(tensor: seq<real>, i: nat): (r: Recognition)
    requires IsOutputTensor(tensor) && i < NUM_ROWS
    ensures r.confidence == tensor[i * ROW_SIZE + 4]
    ensures r.labelName == ""
    ensures 0 <= r.labelId < NUM_CLASSES
    ensures IsFirstPositiveMax(ClassScores(tensor, i), r.labelId, r.labelScore)
    ensures 0 <= r.location.left && 0 <= r.location.top
    ensures r.location.right <= INPUT_WIDTH && r.location.bottom <= INPUT_HEIGHT
  {
    var stride := i * ROW_SIZE;
    var scores := ClassScores(tensor, i);
    BestClassIsFirstPositiveMax(scores);
    var (labelId, score) := BestClass(scores);
    Recognition(
      labelId, "", score, tensor[stride + 4],
      DecodeBox(tensor[stride], tensor[stride + 1], tensor[stride + 2], tensor[stride + 3]))
  }

  /** Lines 182-216: one recognition per row, in row order, nothing filtered out. */
  method Decode(tensor: seq<real>) returns (allRecognitions: seq<Recognition>)
    requires IsOutputTensor(tensor)
    ensures |allRecognitions| == NUM_ROWS
    ensures forall i :: 0 <= i < NUM_ROWS ==> allRecognitions[i] == DecodeRow(tensor, i)
  {
    allRecognitions := [];
    for i := 0 to NUM_ROWS
      invariant |allRecognitions| == i
      invariant forall k :: 0 <= k < i ==> allRecognitions[k] == DecodeRow(tensor, k)
    {
      var gridStride := i * ROW_SIZE;
      var x := tensor[0 + gridStride];
      var y := tensor[1 + gridStride];
      var w := tensor[2 + gridStride];
      var h := tensor[3 + gridStride];
      var confidence := tensor[4 + gridStride];
      var classScores := tensor[5 + gridStride .. ROW_SIZE + gridStride];
      var labelId, maxLabelScores := ArgMaxClass(classScores);
      var r := Recognition(labelId, "", maxLabelScores, confidence, DecodeBox(x, y, w, h));
      allRecognitions := allRecognitions + [r];
    }
  }

  /** The decoding example of a single row: centre (0.5, 0.5), size 0.2 x 0.2,
      objectness 0.9 and class scores [0.1, 0.8] give the box (256, 256, 384, 384)
      in the 640 x 640 input, class 1 with score 0.8. */
  lemma DecodeRowExample(tensor: seq<real>)
    requires IsOutputTensor(tensor)
    requires tensor[..ROW_SIZE] == [0.5, 0.5, 0.2, 0.2, 0.9, 0.1, 0.8]
    ensures DecodeRow(tensor, 0) == Recognition(1, "", 0.8, 0.9, Rect(256, 256, 384, 384))
  {
    assert tensor[0] == 0.5 && tensor[1] == 0.5 && tensor[2] == 0.2 && tensor[3] == 0.2;
    assert tensor[4] == 0.9 && tensor[5] == 0.1 && tensor[6] == 0.8;
    assert ClassScores(tensor, 0) == [0.1, 0.8];
    assert DecodeBox(0.5, 0.5, 0.2, 0.2) == Rect(256, 256, 384, 384);
  }
}
