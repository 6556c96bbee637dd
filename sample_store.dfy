/** The sample store behind the controller's rolling average: the last
    NUM_SAMPLES valid temperature readings and their arithmetic mean. */
module SampleStore {

  /** Capacity of the sample buffer: 30 samples, one every 2 s, i.e. one minute. */
  const NUM_SAMPLES: nat := 30

  /** Sum of the samples, accumulated from the first to the last as the
      averaging loop does. */
  function Sum(s: seq<real>): real
  {
    if s == [] then 0.0 else Sum(s[..|s| - 1]) + s[|s| - 1]
  }

  /** The samples the average is taken over: every reading so far until
      NUM_SAMPLES readings have arrived, afterwards the most recent
      NUM_SAMPLES of them, oldest first. */
  function Window(readings: seq<real>): (w: seq<real>)
    ensures |w| <= NUM_SAMPLES
    ensures |readings| > 0 ==> |w| > 0
  {
    if |readings| <= NUM_SAMPLES then readings else readings[|readings| - NUM_SAMPLES..]
  }

  /** Arithmetic mean of a non-empty set of samples. */
  function Mean(w: seq<real>): real
    requires |w| > 0
  {
    Sum(w) / (|w| as real)
  }

  ghost predicate AllWithin(w: seq<real>, lo: real, hi: real)
  {
    forall i :: 0 <= i < |w| ==> lo <= w[i] <= hi
  }

  /** Splitting the samples anywhere splits their sum. */
  lemma {:induction false} SumAppend(a: seq<real>, b: seq<real>)
    ensures Sum(a + b) == Sum(a) + Sum(b)
    decreases |b|
  {
    if b == [] {
      assert a + b == a;
    } else {
      var b' := b[..|b| - 1];
      assert (a + b)[..|a + b| - 1] == a + b';
      SumAppend(a, b');
    }
  }

  /** Samples that all lie in [lo, hi] have a sum between n * lo and n * hi. */
  lemma {:induction false} SumWithin(w: seq<real>, lo: real, hi: real)
    requires AllWithin(w, lo, hi)
    ensures (|w| as real) * lo <= Sum(w) <= (|w| as real) * hi
    decreases |w|
  {
    if w != [] {
      var w' := w[..|w| - 1];
      assert AllWithin(w', lo, hi) by {
        forall i | 0 <= i < |w'| ensures lo <= w'[i] <= hi {
          assert w'[i] == w[i];
        }
      }
      SumWithin(w', lo, hi);
    }
  }

  /** The mean of samples that all lie in [lo, hi] lies in [lo, hi]. */
  lemma MeanWithin(w: seq<real>, lo: real, hi: real)
    requires |w| > 0 && AllWithin(w, lo, hi)
    ensures lo <= Mean(w) <= hi
  {
    SumWithin(w, lo, hi);
    var n := |w| as real;
    var m := Mean(w);
    assert m * n == Sum(w);
  }

  /** The mean of samples that are all equal to v is v. */
  lemma MeanOfConstant(w: seq<real>, v: real)
    requires |w| > 0
    requires forall i :: 0 <= i < |w| ==> w[i] == v
    ensures Mean(w) == v
  {
    MeanWithin(w, v, v);
  }

  /** One more reading: before the buffer is full it is appended to the
      window; afterwards it evicts the oldest sample of the window. */
  lemma WindowPush(readings: seq<real>, v: real)
    ensures Window(readings + [v]) ==
      if |readings| < NUM_SAMPLES then Window(readings) + [v] else Window(readings)[1..] + [v]
  {
  }

  /** A new reading within [lo, hi] keeps every sample of the window within [lo, hi]. */
  lemma WindowPushWithin(readings: seq<real>, v: real, lo: real, hi: real)
    requires AllWithin(Window(readings), lo, hi) && lo <= v <= hi
    ensures AllWithin(Window(readings + [v]), lo, hi)
  {
  }

  /** When the last NUM_SAMPLES readings are all v, the window holds only v. */
  lemma WindowOfConstantTail(readings: seq<real>, v: real)
    requires |readings| >= NUM_SAMPLES
    requires forall i :: |readings| - NUM_SAMPLES <= i < |readings| ==> readings[i] == v
    ensures |Window(readings)| == NUM_SAMPLES
    ensures forall i :: 0 <= i < NUM_SAMPLES ==> Window(readings)[i] == v
  {
  }
}
