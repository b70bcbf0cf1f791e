/** Non-maximum suppression as Yolov5TFLiteDetector performs it: a per-class pass
    (nms) that keeps, within each class, the most confident box and drops the
    others that overlap it, and a class-blind pass (nmsAllClass) that removes boxes
    of different classes lying on the same object. */
module Suppression {
  import opened Geometry
  import opened Decoding

  /** nmsAllClass drops any box overlapping a more confident one by at least this much. */
  const IOU_CLASS_DUPLICATED_THRESHOLD: real := 0.70

  /** The elements of s that satisfy keep, in their original order. */
  function Filter<T>(s: seq<T>, keep: T -> bool): seq<T>
  {
    if s == [] then []
    else
      var rest := Filter(s[..|s| - 1], keep);
      if keep(s[|s| - 1]) then rest + [s[|s| - 1]] else rest
  }

  /** Filter keeps every copy of each element that passes and no copy of any other. */
  lemma {:induction false} FilterCount<T>(s: seq<T>, keep: T -> bool)
    ensures forall x :: multiset(Filter(s, keep))[x] == if keep(x) then multiset(s)[x] else 0
  {
    if s != [] {
      var init := s[..|s| - 1];
      FilterCount(init, keep);
      assert s == init + [s[|s| - 1]];
    }
  }

  lemma {:induction false} FilterLength<T>(s: seq<T>, keep: T -> bool)
    ensures |Filter(s, keep)| <= |s|
  {
    if s != [] {
      FilterLength(s[..|s| - 1], keep);
    }
  }

  /** Consequences of FilterCount that the suppression passes use. */
  lemma FilterContents<T>(s: seq<T>, keep: T -> bool)
    ensures multiset(Filter(s, keep)) <= multiset(s)
    ensures forall x :: x in Filter(s, keep) <==> x in s && keep(x)
  {
    FilterCount(s, keep);
    forall x
      ensures x in Filter(s, keep) <==> x in s && keep(x)
    {
      assert x in Filter(s, keep) <==> x in multiset(Filter(s, keep));
      assert x in s <==> x in multiset(s);
    }
  }

  /** Filtering by a disjunction of two exclusive tests gathers the elements
      that each test alone would gather. */
  lemma FilterSplit<T>(s: seq<T>, both: T -> bool, p: T -> bool, q: T -> bool)
    requires forall x :: both(x) == (p(x) || q(x))
    requires forall x :: !(p(x) && q(x))
    ensures multiset(Filter(s, both)) == multiset(Filter(s, p)) + multiset(Filter(s, q))
  {
    FilterCount(s, both);
    FilterCount(s, p);
    FilterCount(s, q);
    assert forall x :: multiset(Filter(s, both))[x] == (multiset(Filter(s, p)) + multiset(Filter(s, q)))[x];
  }

  /** The scan that moves the elements passing a test into a new queue: the
      candidate collection of lines 257-264 and 307-312 and the re-queueing of
      lines 275-280 and 322-327. */
  method Retain<T>(s: seq<T>, keep: T -> bool) returns (r: seq<T>)
    ensures r == Filter(s, keep)
  {
    r := [];
    for j := 0 to |s|
      invariant r == Filter(s[..j], keep)
    {
      assert s[..j + 1][..j] == s[..j];
      if keep(s[j]) {
        r := r + [s[j]];
      }
    }
    assert s[..|s|] == s;
  }

  /** Position k holds a most confident recognition of the queue: what the head of
      the PriorityQueue, ordered by decreasing confidence, may be. */
  predicate IsHead(pq: seq<Recognition>, k: int)
  {
    0 <= k < |pq| && forall j :: 0 <= j < |pq| ==> pq[j].confidence <= pq[k].confidence
  }

  lemma {:induction false} HeadExists(pq: seq<Recognition>)
    requires pq != []
    ensures exists k :: IsHead(pq, k)
  {
    if |pq| == 1 {
      assert IsHead(pq, 0);
    } else {
      var tail := pq[1..];
      HeadExists(tail);
      var k :| IsHead(tail, k);
      if pq[0].confidence >= tail[k].confidence {
        forall j | 1 <= j < |pq|
          ensures pq[j].confidence <= pq[0].confidence
        {
          assert pq[j] == tail[j - 1];
        }
        assert IsHead(pq, 0);
      } else {
        forall j | 1 <= j < |pq|
          ensures pq[j].confidence <= pq[k + 1].confidence
        {
          assert pq[j] == tail[j - 1];
        }
        assert IsHead(pq, k + 1);
      }
    }
  }

  /** Recognitions come out most confident first. */
  predicate ByConfidence(kept: seq<Recognition>)
  {
    forall i, j :: 0 <= i < j < |kept| ==> kept[j].confidence <= kept[i].confidence
  }

  /** No later recognition overlaps an earlier one by the threshold or more. */
  predicate Separated(kept: seq<Recognition>, threshold: real)
  {
    forall i, j :: 0 <= i < j < |kept| ==> Iou(kept[i].location, kept[j].location) < threshold
  }

  /** c was dropped because a kept recognition at least as confident overlaps it by
      the threshold or more. */
  predicate Suppressed(c: Recognition, kept: seq<Recognition>, threshold: real)
  {
    exists e :: e in kept && c.confidence <= e.confidence && Iou(e.location, c.location) >= threshold
  }

  /** Every candidate of the pool is kept or suppressed. */
  predicate Covers(kept: seq<Recognition>, pool: seq<Recognition>, threshold: real)
  {
    forall c :: c in pool ==> c in kept || Suppressed(c, kept, threshold)
  }

  /** What holds between the rounds of the greedy loop: the kept recognitions and the
      queue come from the pool, the kept ones are ordered and separated, everything
      still queued is no more confident than and separated from every kept one, and
      every candidate is kept, still queued or already suppressed. */
  predicate GreedyInvariant(pool: seq<Recognition>, kept: seq<Recognition>, pq: seq<Recognition>, threshold: real)
  {
    && multiset(kept) + multiset(pq) <= multiset(pool)
    && ByConfidence(kept)
    && Separated(kept, threshold)
    && (forall e, x :: e in kept && x in pq ==>
          x.confidence <= e.confidence && Iou(e.location, x.location) < threshold)
    && (forall c :: c in pool ==> c in kept || c in pq || Suppressed(c, kept, threshold))
  }

  /** The recognitions of the queue other than position k that overlap the one at k
      by less than the threshold: what one round puts back into the queue. */
  function Survivors(pq: seq<Recognition>, k: int, threshold: real): seq<Recognition>
    requires 0 <= k < |pq|
  {
    Filter(Rest(pq, k), OverlapsLess(pq[k], threshold))
  }

  /** The test of lines 277 and 324: does d overlap max by less than the threshold? */
  function OverlapsLess(max: Recognition, threshold: real): Recognition -> bool
  {
    (d: Recognition) => Iou(max.location, d.location) < threshold
  }

  /** The queue without position k, in the order the rest of the round scans it. */
  function Rest(pq: seq<Recognition>, k: int): seq<Recognition>
    requires 0 <= k < |pq|
  {
    pq[..k] + pq[k + 1..]
  }

  lemma RestContents(pq: seq<Recognition>, k: int)
    requires 0 <= k < |pq|
    ensures multiset(pq) == multiset(Rest(pq, k)) + multiset{pq[k]}
    ensures forall x :: x in Rest(pq, k) ==> x in pq
  {
    assert pq == pq[..k] + [pq[k]] + pq[k + 1..];
  }

  lemma SurvivorsContents(pq: seq<Recognition>, k: int, threshold: real)
    requires 0 <= k < |pq|
    ensures multiset(Survivors(pq, k, threshold)) <= multiset(Rest(pq, k))
    ensures |Survivors(pq, k, threshold)| < |pq|
    ensures forall x :: x in Survivors(pq, k, threshold) <==>
              x in Rest(pq, k) && Iou(pq[k].location, x.location) < threshold
  {
    FilterContents(Rest(pq, k), OverlapsLess(pq[k], threshold));
    FilterLength(Rest(pq, k), OverlapsLess(pq[k], threshold));
  }

  /** Keeping the head after the kept ones leaves them ordered and separated. */
  lemma KeptStaysOrdered(kept: seq<Recognition>, max: Recognition, threshold: real)
    requires ByConfidence(kept) && Separated(kept, threshold)
    requires forall e :: e in kept ==> max.confidence <= e.confidence && Iou(e.location, max.location) < threshold
    ensures ByConfidence(kept + [max]) && Separated(kept + [max], threshold)
  {
    var all := kept + [max];
    forall i, j | 0 <= i < j < |all|
      ensures all[j].confidence <= all[i].confidence
      ensures Iou(all[i].location, all[j].location) < threshold
    {
      assert all[i] == kept[i] && kept[i] in kept;
    }
  }

  /** One round of the loop keeps the invariant when it takes out a most confident
      recognition. */
  lemma GreedyStep(pool: seq<Recognition>, kept: seq<Recognition>, pq: seq<Recognition>, k: int, threshold: real)
    requires GreedyInvariant(pool, kept, pq, threshold)
    requires IsHead(pq, k)
    ensures GreedyInvariant(pool, kept + [pq[k]], Survivors(pq, k, threshold), threshold)
  {
    var max := pq[k];
    var next := Survivors(pq, k, threshold);
    RestContents(pq, k);
    SurvivorsContents(pq, k, threshold);
    assert max in pq;
    KeptStaysOrdered(kept, max, threshold);
    var newKept := kept + [max];
    assert multiset(newKept) + multiset(next) <= multiset(pool);
    forall e, x | e in newKept && x in next
      ensures x.confidence <= e.confidence && Iou(e.location, x.location) < threshold
    {
      assert x in pq;
      if e != max {
        assert e in kept;
      } else {
        var j :| 0 <= j < |pq| && pq[j] == x;
      }
    }
    forall c | c in pool
      ensures c in newKept || c in next || Suppressed(c, newKept, threshold)
    {
      if c in kept {
        assert c in newKept;
      } else if c in pq {
        if c != max {
          assert c in Rest(pq, k) by {
            var j :| 0 <= j < |pq| && pq[j] == c;
            assert c in multiset(pq);
          }
          if c !in next {
            var j :| 0 <= j < |pq| && pq[j] == c;
            assert max in newKept;
          }
        }
      } else {
        var e :| e in kept && c.confidence <= e.confidence && Iou(e.location, c.location) >= threshold;
        assert e in newKept;
      }
    }
  }

  /** Before the first round nothing is kept and the whole pool is queued. */
  lemma GreedyStart(pool: seq<Recognition>, threshold: real)
    ensures GreedyInvariant(pool, [], pool, threshold)
  {
  }

  /** Once the queue is empty, the invariant gives what the loop promises. */
  lemma GreedyDone(pool: seq<Recognition>, kept: seq<Recognition>, threshold: real)
    requires GreedyInvariant(pool, kept, [], threshold)
    ensures multiset(kept) <= multiset(pool)
    ensures ByConfidence(kept) && Separated(kept, threshold)
    ensures Covers(kept, pool, threshold)
  {
  }

  /** The while loop shared by nms (lines 267-281) and nmsAllClass (lines 314-328):
      take a most confident recognition out of the queue, keep it, and put back only
      the others that overlap it by less than the threshold. When several share the
      top confidence, the queue may hand out any of them. */
  method SuppressGreedy(pool: seq<Recognition>, threshold: real) returns (kept: seq<Recognition>)
    ensures multiset(kept) <= multiset(pool)
    ensures ByConfidence(kept)
    ensures Separated(kept, threshold)
    ensures Covers(kept, pool, threshold)
  {
    var pq := pool;
    kept := [];
    GreedyStart(pool, threshold);
    while |pq| > 0
      invariant GreedyInvariant(pool, kept, pq, threshold)
      decreases |pq|
    {
      HeadExists(pq);
      var k :| IsHead(pq, k);
      var max := pq[k];
      var detections := Rest(pq, k);
      var next := Retain(detections, OverlapsLess(max, threshold));
      GreedyStep(pool, kept, pq, k, threshold);
      SurvivorsContents(pq, k, threshold);
      kept := kept + [max];
      pq := next;
    }
    GreedyDone(pool, kept, threshold);
  }

  /** The recognitions of one class above the detection threshold (line 260). */
  predicate InClass(r: Recognition, classId: int, detectThreshold: real)
  {
    r.labelId == classId && r.confidence > detectThreshold
  }

  /** The recognitions of the classes below `bound` that pass the detection threshold. */
  predicate InClassesBelow(r: Recognition, bound: int, detectThreshold: real)
  {
    0 <= r.labelId < bound && r.confidence > detectThreshold
  }

  /** Class ids never decrease along the output. */
  predicate LabelsAscending(out: seq<Recognition>)
  {
    forall i, j :: 0 <= i < j < |out| ==> out[i].labelId <= out[j].labelId
  }

  /** Within one class, recognitions come most confident first and do not overlap by
      the threshold or more. */
  predicate SeparatedPerClass(out: seq<Recognition>, threshold: real)
  {
    forall i, j :: 0 <= i < j < |out| && out[i].labelId == out[j].labelId ==>
      out[j].confidence <= out[i].confidence && Iou(out[i].location, out[j].location) < threshold
  }

  /** c was dropped by a kept recognition of its own class, at least as confident,
      that overlaps it by the threshold or more. */
  predicate SuppressedInClass(c: Recognition, out: seq<Recognition>, threshold: real)
  {
    exists e :: e in out && e.labelId == c.labelId && c.confidence <= e.confidence &&
      Iou(e.location, c.location) >= threshold
  }

  /** Appending the survivors of a higher class keeps the per-class output ordered
      and separated. */
  lemma AppendClass(out: seq<Recognition>, kept: seq<Recognition>, classId: int, threshold: real)
    requires forall r :: r in out ==> r.labelId < classId
    requires forall r :: r in kept ==> r.labelId == classId
    requires LabelsAscending(out) && SeparatedPerClass(out, threshold)
    requires ByConfidence(kept) && Separated(kept, threshold)
    ensures LabelsAscending(out + kept)
    ensures SeparatedPerClass(out + kept, threshold)
  {
    var all := out + kept;
    forall i, j | 0 <= i < j < |all|
      ensures all[i].labelId <= all[j].labelId
      ensures all[i].labelId == all[j].labelId ==>
                all[j].confidence <= all[i].confidence && Iou(all[i].location, all[j].location) < threshold
    {
      if j < |out| {
        assert all[i] == out[i] && all[j] == out[j];
      } else if i < |out| {
        assert all[i] == out[i] && out[i] in out;
        assert all[j] == kept[j - |out|] && kept[j - |out|] in kept;
      } else {
        assert all[i] == kept[i - |out|] && all[j] == kept[j - |out|];
      }
    }
  }

  /** nms (lines 240-284): for each class in turn, gather its recognitions above the
      detection threshold and run the greedy suppression on them. */
  method Nms(allRecognitions: seq<Recognition>, detectThreshold: real, iouThreshold: real)
    returns (nmsRecognitions: seq<Recognition>)
    ensures multiset(nmsRecognitions) <= multiset(allRecognitions)
    ensures forall r :: r in nmsRecognitions ==> InClassesBelow(r, NUM_CLASSES, detectThreshold)
    ensures LabelsAscending(nmsRecognitions)
    ensures SeparatedPerClass(nmsRecognitions, iouThreshold)
    ensures forall c :: c in allRecognitions && InClassesBelow(c, NUM_CLASSES, detectThreshold) ==>
              c in nmsRecognitions || SuppressedInClass(c, nmsRecognitions, iouThreshold)
  {
    nmsRecognitions := [];
    for i := 0 to NUM_CLASSES
      invariant multiset(nmsRecognitions) <=
                  multiset(Filter(allRecognitions, r => InClassesBelow(r, i, detectThreshold)))
      invariant forall r :: r in nmsRecognitions ==> InClassesBelow(r, i, detectThreshold)
      invariant LabelsAscending(nmsRecognitions)
      invariant SeparatedPerClass(nmsRecognitions, iouThreshold)
      invariant forall c :: c in allRecognitions && InClassesBelow(c, i, detectThreshold) ==>
                  c in nmsRecognitions || SuppressedInClass(c, nmsRecognitions, iouThreshold)
    {
      var inClass := (r: Recognition) => InClass(r, i, detectThreshold);
      var pq := Retain(allRecognitions, inClass);
      FilterContents(allRecognitions, inClass);
      var kept := SuppressGreedy(pq, iouThreshold);
      forall r | r in kept
        ensures InClass(r, i, detectThreshold)
      {
        assert r in multiset(kept);
        assert r in multiset(pq);
        assert r in pq;
      }
      FilterSplit(allRecognitions,
        r => InClassesBelow(r, i + 1, detectThreshold),
        r => InClassesBelow(r, i, detectThreshold),
        inClass);
      AppendClass(nmsRecognitions, kept, i, iouThreshold);
      var before := nmsRecognitions;
      nmsRecognitions := nmsRecognitions + kept;
      forall c | c in allRecognitions && InClassesBelow(c, i + 1, detectThreshold)
        ensures c in nmsRecognitions || SuppressedInClass(c, nmsRecognitions, iouThreshold)
      {
        if c.labelId < i {
          if c !in before {
            var e :| e in before && e.labelId == c.labelId && c.confidence <= e.confidence &&
                     Iou(e.location, c.location) >= iouThreshold;
            assert e in nmsRecognitions;
          }
        } else {
          assert c in pq;
          if c !in kept {
            var e :| e in kept && c.confidence <= e.confidence && Iou(e.location, c.location) >= iouThreshold;
            assert e in nmsRecognitions;
          }
        }
      }
    }
    FilterContents(allRecognitions, r => InClassesBelow(r, NUM_CLASSES, detectThreshold));
  }

  /** nmsAllClass (lines 293-330): the same greedy suppression over all classes at
      once, with the duplicate-box threshold. */
  method NmsAllClass(allRecognitions: seq<Recognition>, detectThreshold: real)
    returns (nmsRecognitions: seq<Recognition>)
    ensures multiset(nmsRecognitions) <= multiset(allRecognitions)
    ensures forall r :: r in nmsRecognitions ==> r.confidence > detectThreshold
    ensures ByConfidence(nmsRecognitions)
    ensures Separated(nmsRecognitions, IOU_CLASS_DUPLICATED_THRESHOLD)
    ensures forall c :: c in allRecognitions && c.confidence > detectThreshold ==>
              c in nmsRecognitions || Suppressed(c, nmsRecognitions, IOU_CLASS_DUPLICATED_THRESHOLD)
  {
    var aboveThreshold := (r: Recognition) => r.confidence > detectThreshold;
    var pq := Retain(allRecognitions, aboveThreshold);
    FilterContents(allRecognitions, aboveThreshold);
    nmsRecognitions := SuppressGreedy(pq, IOU_CLASS_DUPLICATED_THRESHOLD);
    forall r | r in nmsRecognitions
      ensures r.confidence > detectThreshold
    {
      assert r in multiset(nmsRecognitions);
      assert r in multiset(pq);
      assert r in pq;
    }
  }
}
