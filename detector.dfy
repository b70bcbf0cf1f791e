/** The Yolov5TFLiteDetector object: its two adjustable thresholds, the label list,
    and detect, which decodes the output tensor, runs both suppression passes and
    names the survivors. */
module Detector {
  import opened Common
  import opened Geometry
  import opened Decoding
  import opened Suppression

  /** DETECT_THRESHOLD and IOU_THRESHOLD as the detector starts (0.50f). */
  const DEFAULT_DETECT_THRESHOLD: real := 0.5
  const DEFAULT_IOU_THRESHOLD: real := 0.5

  /** a and b are the same recognition apart, perhaps, from the class name. */
  predicate SameButName(a: Recognition, b: Recognition)
  {
    a.(labelName := "") == b.(labelName := "")
  }

  /** The class name of r is the label file's entry for its class id. */
  predicate NamedFrom(r: Recognition, labels: seq<string>)
  {
    0 <= r.labelId < |labels| && r.labelName == labels[r.labelId]
  }

  /** Lines 225-229: give each recognition the name of its class. A class id with no
      line in the label file makes List.get throw, which ends detection (None). */
  method ResolveLabels(rs: seq<Recognition>, labels: seq<string>) returns (named: Option<seq<Recognition>>)
    ensures named.Some? <==> forall r :: r in rs ==> 0 <= r.labelId < |labels|
    ensures named.Some? ==> |named.value| == |rs|
    ensures named.Some? ==> forall i :: 0 <= i < |rs| ==>
              NamedFrom(named.value[i], labels) && SameButName(named.value[i], rs[i])
  {
    var out := [];
    for i := 0 to |rs|
      invariant |out| == i
      invariant forall k :: 0 <= k < i ==> 0 <= rs[k].labelId < |labels|
      invariant forall k :: 0 <= k < i ==> NamedFrom(out[k], labels) && SameButName(out[k], rs[k])
    {
      var labelId := rs[i].labelId;
      if !(0 <= labelId < |labels|) {
        return None;
      }
      out := out + [rs[i].(labelName := labels[labelId])];
    }
    named := Some(out);
  }

  /** Both suppression passes only drop recognitions, so each survivor is a decoded
      row of the tensor above the threshold. */
  lemma SurvivorsAreDecodedRows(tensor: seq<real>, all: seq<Recognition>, nms: seq<Recognition>,
                                filtered: seq<Recognition>, detectThreshold: real)
    requires IsOutputTensor(tensor)
    requires |all| == NUM_ROWS && forall i :: 0 <= i < NUM_ROWS ==> all[i] == DecodeRow(tensor, i)
    requires multiset(nms) <= multiset(all) && multiset(filtered) <= multiset(nms)
    requires forall r :: r in nms ==> InClassesBelow(r, NUM_CLASSES, detectThreshold)
    ensures forall r :: r in filtered ==>
              InClassesBelow(r, NUM_CLASSES, detectThreshold) && exists i :: 0 <= i < NUM_ROWS && r == DecodeRow(tensor, i)
  {
    forall r | r in filtered
      ensures InClassesBelow(r, NUM_CLASSES, detectThreshold)
      ensures exists i :: 0 <= i < NUM_ROWS && r == DecodeRow(tensor, i)
    {
      assert r in multiset(filtered);
      assert r in multiset(nms);
      assert r in multiset(all);
      var i :| 0 <= i < |all| && all[i] == r;
    }
  }

  /** Naming the survivors keeps their order and their separation, and each named
      recognition is its decoded row with the label file's name for its class. */
  lemma NamingKeepsTheOutput(tensor: seq<real>, filtered: seq<Recognition>, named: seq<Recognition>,
                             labels: seq<string>, detectThreshold: real)
    requires IsOutputTensor(tensor)
    requires forall r :: r in filtered ==>
               InClassesBelow(r, NUM_CLASSES, detectThreshold) && exists i :: 0 <= i < NUM_ROWS && r == DecodeRow(tensor, i)
    requires ByConfidence(filtered) && Separated(filtered, IOU_CLASS_DUPLICATED_THRESHOLD)
    requires |named| == |filtered|
    requires forall i :: 0 <= i < |filtered| ==> NamedFrom(named[i], labels) && SameButName(named[i], filtered[i])
    ensures forall r :: r in named ==>
              && NamedFrom(r, labels)
              && InClassesBelow(r, NUM_CLASSES, detectThreshold)
              && exists i :: 0 <= i < NUM_ROWS && SameButName(r, DecodeRow(tensor, i))
    ensures ByConfidence(named)
    ensures Separated(named, IOU_CLASS_DUPLICATED_THRESHOLD)
  {
    forall r | r in named
      ensures NamedFrom(r, labels)
      ensures InClassesBelow(r, NUM_CLASSES, detectThreshold)
      ensures exists i :: 0 <= i < NUM_ROWS && SameButName(r, DecodeRow(tensor, i))
    {
      var k :| 0 <= k < |named| && named[k] == r;
      assert filtered[k] in filtered;
    }
    forall i, j | 0 <= i < j < |named|
      ensures named[j].confidence <= named[i].confidence
      ensures Iou(named[i].location, named[j].location) < IOU_CLASS_DUPLICATED_THRESHOLD
    {
      assert SameButName(named[i], filtered[i]) && SameButName(named[j], filtered[j]);
    }
  }

  /** What the two suppression passes of detect (lines 216-218) keep between them:
      for every row above the threshold there is an output at least as confident,
      either the row itself or the box that suppressed it (or what suppressed that). */
  lemma TwoPassesKeepTheMostConfident(all: seq<Recognition>, nms: seq<Recognition>, filtered: seq<Recognition>,
                                      detectThreshold: real, iouThreshold: real)
    requires forall c :: c in all && InClassesBelow(c, NUM_CLASSES, detectThreshold) ==>
               c in nms || SuppressedInClass(c, nms, iouThreshold)
    requires forall r :: r in nms ==> InClassesBelow(r, NUM_CLASSES, detectThreshold)
    requires forall c :: c in nms && c.confidence > detectThreshold ==>
               c in filtered || Suppressed(c, filtered, IOU_CLASS_DUPLICATED_THRESHOLD)
    ensures forall c :: c in all && InClassesBelow(c, NUM_CLASSES, detectThreshold) ==>
              exists r :: r in filtered && c.confidence <= r.confidence
  {
    forall c | c in all && InClassesBelow(c, NUM_CLASSES, detectThreshold)
      ensures exists r :: r in filtered && c.confidence <= r.confidence
    {
      var d: Recognition;
      if c in nms {
        d := c;
      } else {
        d :| d in nms && d.labelId == c.labelId && c.confidence <= d.confidence &&
             Iou(d.location, c.location) >= iouThreshold;
      }
      if d !in filtered {
        var e :| e in filtered && d.confidence <= e.confidence &&
                 Iou(e.location, d.location) >= IOU_CLASS_DUPLICATED_THRESHOLD;
      }
    }
  }

  /** Naming the recognitions changes no confidence, so whatever one of them
      outranks is outranked by its named copy. */
  lemma RenamingKeepsConfidence(rs: seq<Recognition>, named: seq<Recognition>)
    requires |named| == |rs|
    requires forall i :: 0 <= i < |rs| ==> SameButName(named[i], rs[i])
    ensures forall f :: f in rs ==> exists r :: r in named && r.confidence == f.confidence
  {
    forall f | f in rs
      ensures exists r :: r in named && r.confidence == f.confidence
    {
      var k :| 0 <= k < |rs| && rs[k] == f;
      assert SameButName(named[k], f);
      assert named[k] in named;
    }
  }

  /** The named output of detect answers for the decoded rows: each row above the
      threshold is outranked by some output, and the output is empty exactly when
      no row is above the threshold. */
  lemma OutputAnswersEveryPassingRow(tensor: seq<real>, all: seq<Recognition>, filtered: seq<Recognition>,
                                     named: seq<Recognition>, detectThreshold: real)
    requires IsOutputTensor(tensor)
    requires |all| == NUM_ROWS && forall i :: 0 <= i < NUM_ROWS ==> all[i] == DecodeRow(tensor, i)
    requires forall c :: c in all && InClassesBelow(c, NUM_CLASSES, detectThreshold) ==>
               exists r :: r in filtered && c.confidence <= r.confidence
    requires forall r :: r in filtered ==>
               InClassesBelow(r, NUM_CLASSES, detectThreshold) && exists i :: 0 <= i < NUM_ROWS && r == DecodeRow(tensor, i)
    requires |named| == |filtered| && forall i :: 0 <= i < |filtered| ==> SameButName(named[i], filtered[i])
    ensures forall i :: 0 <= i < NUM_ROWS && InClassesBelow(DecodeRow(tensor, i), NUM_CLASSES, detectThreshold) ==>
              exists r :: r in named && DecodeRow(tensor, i).confidence <= r.confidence
    ensures named == [] <==>
              forall i :: 0 <= i < NUM_ROWS ==> !InClassesBelow(DecodeRow(tensor, i), NUM_CLASSES, detectThreshold)
  {
    RenamingKeepsConfidence(filtered, named);
    forall i | 0 <= i < NUM_ROWS && InClassesBelow(DecodeRow(tensor, i), NUM_CLASSES, detectThreshold)
      ensures exists r :: r in named && DecodeRow(tensor, i).confidence <= r.confidence
    {
      assert all[i] in all;
      var f :| f in filtered && all[i].confidence <= f.confidence;
      var r :| r in named && r.confidence == f.confidence;
    }
    if named != [] {
      assert filtered[0] in filtered;
      var i :| 0 <= i < NUM_ROWS && filtered[0] == DecodeRow(tensor, i);
      assert InClassesBelow(DecodeRow(tensor, i), NUM_CLASSES, detectThreshold);
    }
  }

  class Yolov5TFLiteDetector {
    /** Minimum objectness for a candidate to take part in suppression. */
    var detectThreshold: real
    /** Per-class suppression threshold. */
    var iouThreshold: real
    /** The lines of label.txt, one class name per class id. */
    var associatedAxisLabels: seq<string>

    /** A detector whose model and label file have been loaded. */
    constructor(labels: seq<string>)
      ensures detectThreshold == DEFAULT_DETECT_THRESHOLD
      ensures iouThreshold == DEFAULT_IOU_THRESHOLD
      ensures associatedAxisLabels == labels
    {
      detectThreshold := DEFAULT_DETECT_THRESHOLD;
      iouThreshold := DEFAULT_IOU_THRESHOLD;
      associatedAxisLabels := labels;
    }

    /** setDetectThreshold (lines 98-100). */
    method SetDetectThreshold(threshold: real)
      modifies this
      ensures detectThreshold == threshold
      ensures iouThreshold == old(iouThreshold) && associatedAxisLabels == old(associatedAxisLabels)
    {
      detectThreshold := threshold;
    }

    /** setIOUThreshold (lines 94-96). */
    method SetIouThreshold(threshold: real)
      modifies this
      ensures iouThreshold == threshold
      ensures detectThreshold == old(detectThreshold) && associatedAxisLabels == old(associatedAxisLabels)
    {
      iouThreshold := threshold;
    }

    /** detect, from the output tensor on (lines 180-231). Every recognition returned
        is a decoded row above the detection threshold, named from the label file;
        no two overlap by 0.70 or more, and they come most confident first. It fails
        only when a surviving class id has no label. */
    method Detect(tensor: seq<real>) returns (result: Option<seq<Recognition>>)
      requires IsOutputTensor(tensor)
      ensures |associatedAxisLabels| >= NUM_CLASSES ==> result.Some?
      ensures result.Some? ==> forall r :: r in result.value ==>
                && NamedFrom(r, associatedAxisLabels)
                && InClassesBelow(r, NUM_CLASSES, detectThreshold)
                && exists i :: 0 <= i < NUM_ROWS && SameButName(r, DecodeRow(tensor, i))
      ensures result.Some? ==> ByConfidence(result.value)
      ensures result.Some? ==> Separated(result.value, IOU_CLASS_DUPLICATED_THRESHOLD)
      ensures result.Some? ==> forall i :: 0 <= i < NUM_ROWS && InClassesBelow(DecodeRow(tensor, i), NUM_CLASSES, detectThreshold) ==>
                exists r :: r in result.value && DecodeRow(tensor, i).confidence <= r.confidence
      ensures result.Some? ==>
                (result.value == [] <==>
                   forall i :: 0 <= i < NUM_ROWS ==> !InClassesBelow(DecodeRow(tensor, i), NUM_CLASSES, detectThreshold))
    {
      var allRecognitions := Decode(tensor);
      var nmsRecognitions := Nms(allRecognitions, detectThreshold, iouThreshold);
      var filtered := NmsAllClass(nmsRecognitions, detectThreshold);
      SurvivorsAreDecodedRows(tensor, allRecognitions, nmsRecognitions, filtered, detectThreshold);
      TwoPassesKeepTheMostConfident(allRecognitions, nmsRecognitions, filtered, detectThreshold, iouThreshold);
      result := ResolveLabels(filtered, associatedAxisLabels);
      if result.Some? {
        NamingKeepsTheOutput(tensor, filtered, result.value, associatedAxisLabels, detectThreshold);
        OutputAnswersEveryPassingRow(tensor, allRecognitions, filtered, result.value, detectThreshold);
      }
    }
  }
}
