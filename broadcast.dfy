/**
 * The delivery loop of `process_broadcast`: the fetched user list is sent to in consecutive
 * batches of 30; each recipient's delivery either succeeds or raises, and is counted; after
 * some batches a progress notice reports how many users have been reached; after every
 * batch but the last the loop pauses.
 */
module Broadcast {
  import opened Numbers

  const BatchSize: nat := 30
  const ProgressEvery: nat := 100

  /** The condition for a progress notice after the batch that starts at `i`. */
  predicate NoticeAfter(i: nat, total: nat) {
    (i + BatchSize) % ProgressEvery == 0 || i + BatchSize >= total
  }

  /** The values the progress notices report, for the batches starting at `i`, `i + 30`, ... */
  function Progress(i: nat, total: nat): seq<nat>
    decreases total - i
  {
    if i >= total then []
    else (if NoticeAfter(i, total) then [Min(i + BatchSize, total)] else []) + Progress(i + BatchSize, total)
  }

  /** The recipients of a list of batches, in the order they were sent to. */
  function Flatten(bs: seq<seq<int>>): seq<int> {
    if bs == [] then [] else Flatten(bs[..|bs| - 1]) + bs[|bs| - 1]
  }

  /**
   * The batches sent so far cover the first `done` users: whole batches of 30 while users
   * remain, the last one possibly shorter.
   */
  ghost predicate BatchesSoFar(users: seq<int>, done: nat, batches: seq<seq<int>>) {
    && done <= |users|
    && done == Min(BatchSize * |batches|, |users|)
    && (batches != [] ==> BatchSize * (|batches| - 1) < |users|)
    && Flatten(batches) == users[..done]
    && (forall k :: 0 <= k < |batches| ==> 0 < |batches[k]| <= BatchSize)
    && (forall k :: 0 <= k < |batches| - 1 ==> |batches[k]| == BatchSize)
    && (done < |users| ==> forall k :: 0 <= k < |batches| ==> |batches[k]| == BatchSize)
  }

  /** The counters hold the outcomes of the deliveries made so far. */
  ghost predicate CountsSoFar(outcomes: seq<bool>, done: nat, success: nat, fail: nat)
    requires done <= |outcomes|
  {
    && success == multiset(outcomes[..done])[true]
    && fail == multiset(outcomes[..done])[false]
    && success + fail == done
  }

  /** The notices and pauses so far, with `b` batches sent and the next one starting at `i`. */
  ghost predicate NoticesSoFar(total: nat, i: nat, b: nat, progress: seq<nat>, pauses: nat) {
    && progress + Progress(i, total) == Progress(0, total)
    && pauses == if b == 0 then 0 else if i < total then b else b - 1
  }

  /**
   * The loop at admin.py:141-172. `outcomes[k]` is whether the delivery to `users[k]`
   * returned normally (`true`) or raised (`false`). Returns the two counters, the values
   * of the progress notices, the number of pauses and the batches, in order.
   */
  method RunBroadcast(users: seq<int>, outcomes: seq<bool>)
    returns (success: nat, fail: nat, progress: seq<nat>, pauses: nat, batches: seq<seq<int>>)
    requires |outcomes| == |users|
    ensures success == multiset(outcomes)[true]
    ensures fail == multiset(outcomes)[false]
    ensures success + fail == |users|
    ensures Flatten(batches) == users
    ensures forall k :: 0 <= k < |batches| ==> 0 < |batches[k]| <= BatchSize
    ensures forall k :: 0 <= k < |batches| - 1 ==> |batches[k]| == BatchSize
    ensures |batches| == (|users| + BatchSize - 1) / BatchSize
    ensures pauses == if batches == [] then 0 else |batches| - 1
    ensures progress == Progress(0, |users|)
  {
    success, fail, progress, pauses, batches := 0, 0, [], 0, [];
    var total := |users|;
    var i := 0;
    // `i` runs through 0, 30, 60, ... as `range(0, total, 30)` does; after the last batch it
    // stops at `total` instead of the next multiple of 30, which ends the loop all the same.
    while i < total
      invariant BatchesSoFar(users, i, batches)
      invariant CountsSoFar(outcomes, i, success, fail)
      invariant NoticesSoFar(total, i, |batches|, progress, pauses)
      decreases total - i
    {
      var end := Min(i + BatchSize, total);
      var batch := users[i..end];
      var results := outcomes[i..end];
      ghost var success0, fail0 := success, fail;
      success, fail := CountResults(results, success, fail);
      CountsStep(outcomes, i, end, success0, fail0, success, fail);
      BatchesStep(users, i, batches);
      batches := batches + [batch];
      ghost var progress0, pauses0 := progress, pauses;
      if NoticeAfter(i, total) {
        progress := progress + [end];
      }
      if i + BatchSize < total {
        pauses := pauses + 1;
      }
      NoticesStep(total, i, |batches| - 1, progress0, pauses0, progress, pauses);
      i := end;
    }
    assert users[..total] == users && outcomes[..total] == outcomes;
    BatchCount(total, |batches|);
  }

  lemma NoticesStep(total: nat, i: nat, b: nat, progress0: seq<nat>, pauses0: nat, progress: seq<nat>, pauses: nat)
    requires i < total
    requires NoticesSoFar(total, i, b, progress0, pauses0)
    requires progress == if NoticeAfter(i, total) then progress0 + [Min(i + BatchSize, total)] else progress0
    requires pauses == if i + BatchSize < total then pauses0 + 1 else pauses0
    ensures NoticesSoFar(total, Min(i + BatchSize, total), b + 1, progress, pauses)
  {
    var head := if NoticeAfter(i, total) then [Min(i + BatchSize, total)] else [];
    var rest := Progress(i + BatchSize, total);
    assert Progress(i, total) == head + rest;
    assert Progress(Min(i + BatchSize, total), total) == rest;
    assert progress == progress0 + head;
    assert progress0 + (head + rest) == (progress0 + head) + rest;
  }

  lemma CountsStep(outcomes: seq<bool>, i: nat, end: nat, success0: nat, fail0: nat, success: nat, fail: nat)
    requires i <= end <= |outcomes|
    requires CountsSoFar(outcomes, i, success0, fail0)
    requires success == success0 + multiset(outcomes[i..end])[true]
    requires fail == fail0 + multiset(outcomes[i..end])[false]
    requires success + fail == success0 + fail0 + (end - i)
    ensures CountsSoFar(outcomes, end, success, fail)
  {
    assert outcomes[..end] == outcomes[..i] + outcomes[i..end];
  }

  lemma BatchesStep(users: seq<int>, i: nat, batches: seq<seq<int>>)
    requires i < |users|
    requires BatchesSoFar(users, i, batches)
    ensures BatchesSoFar(users, Min(i + BatchSize, |users|), batches + [users[i..Min(i + BatchSize, |users|)]])
  {
    var end := Min(i + BatchSize, |users|);
    var batch := users[i..end];
    assert (batches + [batch])[..|batches|] == batches;
    assert users[..end] == users[..i] + batch;
  }

  /**
   * The inner loop at admin.py:156-161: one batch's results added to the counters, a
   * result that is an exception as a failure and any other as a success.
   */
  method CountResults(results: seq<bool>, success0: nat, fail0: nat) returns (success: nat, fail: nat)
    ensures success == success0 + multiset(results)[true]
    ensures fail == fail0 + multiset(results)[false]
    ensures success + fail == success0 + fail0 + |results|
  {
    success, fail := success0, fail0;
    var r := 0;
    while r < |results|
      invariant 0 <= r <= |results|
      invariant success == success0 + multiset(results[..r])[true]
      invariant fail == fail0 + multiset(results[..r])[false]
      invariant success + fail == success0 + fail0 + r
    {
      assert results[..r + 1] == results[..r] + [results[r]];
      if results[r] {
        success := success + 1;
      } else {
        fail := fail + 1;
      }
      r := r + 1;
    }
    assert results[..r] == results;
  }

  lemma BatchCount(total: nat, b: nat)
    requires BatchSize * b >= total
    requires b == 0 || BatchSize * (b - 1) < total
    ensures b == (total + BatchSize - 1) / BatchSize
  {
  }

  /** Every notice reports a count past the batch's start and never more than the total. */
  lemma {:induction false} ProgressBounded(i: nat, total: nat)
    ensures forall k :: 0 <= k < |Progress(i, total)| ==> i < Progress(i, total)[k] <= total
    decreases total - i
  {
    if i < total {
      ProgressBounded(i + BatchSize, total);
    }
  }

  /** The notices report strictly increasing counts. */
  lemma {:induction false} ProgressIncreasing(i: nat, total: nat)
    ensures forall j, k :: 0 <= j < k < |Progress(i, total)| ==> Progress(i, total)[j] < Progress(i, total)[k]
    decreases total - i
  {
    if i < total {
      ProgressIncreasing(i + BatchSize, total);
      ProgressBounded(i + BatchSize, total);
    }
  }

  /** The last batch always produces a notice, and it reports the total. */
  lemma {:induction false} ProgressEndsWithTotal(i: nat, total: nat)
    requires i < total
    ensures Progress(i, total) != []
    ensures Progress(i, total)[|Progress(i, total)| - 1] == total
    decreases total - i
  {
    if i + BatchSize < total {
      ProgressEndsWithTotal(i + BatchSize, total);
    }
  }

  /** Among counts that are multiples of 30, the multiples of 100 are exactly the multiples of 300. */
  lemma {:induction false} MultipleOf30And100(m: nat)
    requires m % BatchSize == 0
    ensures m % ProgressEvery == 0 <==> m % 300 == 0
    decreases m
  {
    if m >= 300 {
      MultipleOf30And100(m - 300);
    } else {
      assert m == 0 || m == 30 || m == 60 || m == 90 || m == 120 || m == 150 || m == 180 || m == 210 || m == 240 || m == 270;
    }
  }

  /**
   * Which counts are reported: the total (when there is any user) and, before it, exactly
   * the multiples of 300; so a notice comes every 300 users, not every 100.
   */
  lemma {:induction false} ProgressValues(i: nat, total: nat, v: int)
    requires i % BatchSize == 0
    ensures v in Progress(i, total) <==> (i < total && v == total) || (i < v < total && v % 300 == 0)
    decreases total - i
  {
    if i < total {
      ProgressValues(i + BatchSize, total, v);
      MultipleOf30And100(i + BatchSize);
      var head := if NoticeAfter(i, total) then [Min(i + BatchSize, total)] else [];
      assert Progress(i, total) == head + Progress(i + BatchSize, total);
      assert v in head <==> NoticeAfter(i, total) && v == Min(i + BatchSize, total);
    }
  }
}
