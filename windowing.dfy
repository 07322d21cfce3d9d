/**
 * The sequence handling of the prediction service (backend/app.py): cutting a
 * price series into fixed-length training windows, and rolling a window
 * forward one predicted day at a time. The network is an opaque predictor.
 */
module Windowing {

  /** The window length the model was trained with (`SEQUENCE_LENGTH`). */
  const SequenceLength: nat := 60

  /**
   * `create_sequences`: window k is `data[k .. k + seqLength)`, one window for
   * every end position from `seqLength` up to `|data| - 1`.
   */
  method CreateSequences(data: seq<real>, seqLength: nat) returns (windows: seq<seq<real>>)
    requires seqLength > 0
    ensures |windows| == if |data| > seqLength then |data| - seqLength else 0
    ensures forall k :: 0 <= k < |windows| ==> |windows[k]| == seqLength && windows[k] == data[k..k + seqLength]
  {
    windows := [];
    var i := seqLength;
    while i < |data|
      invariant seqLength <= i <= if |data| > seqLength then |data| else seqLength
      invariant |windows| == i - seqLength
      invariant forall k :: 0 <= k < |windows| ==> windows[k] == data[k..k + seqLength]
    {
      windows := windows + [data[i - seqLength..i]];
      i := i + 1;
    }
  }

  /** One step of the rolling window: drop the oldest value, append the prediction for it. */
  function Roll(predict: seq<real> -> real, window: seq<real>): (next: seq<real>)
    requires |window| > 0
    ensures |next| == |window|
  {
    window[1..] + [predict(window)]
  }

  /** The window as it stands before prediction k, starting from `start`. */
  function WindowAt(predict: seq<real> -> real, start: seq<real>, k: nat): (window: seq<real>)
    requires |start| > 0
    ensures |window| == |start|
  {
    if k == 0 then start else Roll(predict, WindowAt(predict, start, k - 1))
  }

  /**
   * `predict_future_days`: prediction k is the predictor applied to the
   * window after k steps; `days <= 0` gives no prediction. The caller's
   * sequence is a value here, so the copy the source makes first is implicit.
   */
  method PredictFutureDays(predict: seq<real> -> real, lastSequence: seq<real>, days: int)
    returns (predictions: seq<real>)
    requires days > 0 ==> |lastSequence| == SequenceLength
    ensures |predictions| == if days > 0 then days else 0
    ensures forall k :: 0 <= k < |predictions| ==> predictions[k] == predict(WindowAt(predict, lastSequence, k))
  {
    predictions := [];
    var current := lastSequence;
    var count := if days > 0 then days else 0;
    for step := 0 to count
      invariant |predictions| == step
      invariant count > 0 ==> current == WindowAt(predict, lastSequence, step)
      invariant forall k :: 0 <= k < step ==> predictions[k] == predict(WindowAt(predict, lastSequence, k))
    {
      var next := predict(current);
      predictions := predictions + [next];
      current := current[1..] + [next];
    }
  }

  /**
   * After k steps the newest min(k, |start|) values of the window are the
   * most recent predictions, oldest first.
   */
  lemma {:induction false} WindowEndsWithPredictions(predict: seq<real> -> real, start: seq<real>, k: nat, j: nat)
    requires |start| > 0
    requires j < k && j < |start|
    ensures WindowAt(predict, start, k)[|start| - 1 - j] == predict(WindowAt(predict, start, k - 1 - j))
  {
    var prev := WindowAt(predict, start, k - 1);
    assert WindowAt(predict, start, k) == Roll(predict, prev);
    if j > 0 {
      WindowEndsWithPredictions(predict, start, k - 1, j - 1);
    }
  }

  /** Before k reaches the window length, the oldest values of the window are still the caller's, shifted by k. */
  lemma {:induction false} WindowKeepsUnrolledInput(predict: seq<real> -> real, start: seq<real>, k: nat, j: nat)
    requires |start| > 0
    requires j + k < |start|
    ensures WindowAt(predict, start, k)[j] == start[j + k]
  {
    if k > 0 {
      WindowKeepsUnrolledInput(predict, start, k - 1, j + 1);
      assert WindowAt(predict, start, k) == Roll(predict, WindowAt(predict, start, k - 1));
    }
  }
}
