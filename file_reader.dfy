/** create_voice_array: the single voice of a one-part score, as one sequence of notes made
    from the first staff of every measure, or the error that makes the score unusable. */
module FileReader {
  import opened Wrappers
  import opened MxApi

  /** A measure the reader can use: at least one staff, and exactly one voice in the first. */
  predicate Readable(m: Measure) {
    |m.staves| >= 1 && |m.staves[0].voices| == 1
  }

  /** The notes the reader takes from a measure: the first staff's only voice. */
  function MeasureNotes(m: Measure): seq<Note>
    requires Readable(m)
  {
    m.staves[0].voices[0].notes
  }

  /** What is wrong with a measure, checked in the reader's order. */
  function MeasureError(m: Measure): (r: Option<Error>)
    ensures r.None? <==> Readable(m)
    ensures r == Some(ZeroStaves) <==> |m.staves| == 0
    ensures r.Some? ==> r.value == ZeroStaves || r.value == NotExactlyOneVoice
  {
    if |m.staves| < 1 then Some(ZeroStaves)
    else if |m.staves[0].voices| != 1 then Some(NotExactlyOneVoice)
    else None
  }

  /** The error of the first unusable measure from measure k on, if there is one. */
  function FirstErrorFrom(ms: seq<Measure>, k: nat): Option<Error>
    requires k <= |ms|
    decreases |ms| - k
  {
    if k == |ms| then None
    else if MeasureError(ms[k]).Some? then MeasureError(ms[k])
    else FirstErrorFrom(ms, k + 1)
  }

  /** No error means every measure from k on is usable; an error is that of a measure with
      only usable measures between k and it. */
  lemma {:induction false} FirstErrorFromFirst(ms: seq<Measure>, k: nat)
    requires k <= |ms|
    decreases |ms| - k
    ensures FirstErrorFrom(ms, k).None? <==> forall l :: k <= l < |ms| ==> Readable(ms[l])
    ensures FirstErrorFrom(ms, k).Some? ==> exists j :: (k <= j < |ms| && MeasureError(ms[j]) == FirstErrorFrom(ms, k) &&
      forall l :: k <= l < j ==> Readable(ms[l]))
  {
    if k < |ms| && MeasureError(ms[k]).None? {
      FirstErrorFromFirst(ms, k + 1);
    }
  }

  /** The notes of every measure, in measure order. */
  function Condense(ms: seq<Measure>): seq<Note>
    requires forall k :: 0 <= k < |ms| ==> Readable(ms[k])
    decreases |ms|
  {
    if ms == [] then [] else Condense(ms[..|ms| - 1]) + MeasureNotes(ms[|ms| - 1])
  }

  /** The number of notes the measures hold between them. */
  function NoteCount(ms: seq<Measure>): nat
    requires forall k :: 0 <= k < |ms| ==> Readable(ms[k])
    decreases |ms|
  {
    if ms == [] then 0 else NoteCount(ms[..|ms| - 1]) + |MeasureNotes(ms[|ms| - 1])|
  }

  /** What create_voice_array returns or raises for a score. */
  function VoiceArray(score: Score): (r: Result<seq<Note>>)
    ensures r.Ok? ==>
      && |score.parts| == 1
      && (forall k :: 0 <= k < |score.parts[0].measures| ==> Readable(score.parts[0].measures[k]))
      && |r.value| == NoteCount(score.parts[0].measures)
  {
    if |score.parts| != 1 then Err(MoreThanOnePart)
    else
      var ms := score.parts[0].measures;
      match FirstErrorFrom(ms, 0)
      case Some(e) => Err(e)
      case None =>
        FirstErrorFromFirst(ms, 0);
        CondenseLength(ms);
        Ok(Condense(ms))
  }

  /** create_voice_array: a pass over the measures that checks each one and keeps its notes,
      then a pass that appends those notes one by one. */
  method CreateVoiceArray(score: Score) returns (r: Result<seq<Note>>)
    ensures r == VoiceArray(score)
  {
    if |score.parts| != 1 {
      return Err(MoreThanOnePart);
    }
    var part := score.parts[0];
    var condensedMeasures: seq<seq<Note>> := [];
    for k := 0 to |part.measures|
      invariant |condensedMeasures| == k
      invariant forall l :: 0 <= l < k ==> Readable(part.measures[l])
      invariant forall l :: 0 <= l < k ==> condensedMeasures[l] == MeasureNotes(part.measures[l])
      invariant FirstErrorFrom(part.measures, 0) == FirstErrorFrom(part.measures, k)
    {
      var measure := part.measures[k];
      if |measure.staves| < 1 {
        return Err(ZeroStaves);
      }
      var staff := measure.staves[0];
      if |staff.voices| != 1 {
        return Err(NotExactlyOneVoice);
      }
      condensedMeasures := condensedMeasures + [staff.voices[0].notes];
    }
    var partCondensed: seq<Note> := [];
    for k := 0 to |condensedMeasures|
      invariant partCondensed == Join(condensedMeasures[..k])
    {
      var measureNotes := condensedMeasures[k];
      for n := 0 to |measureNotes|
        invariant partCondensed == Join(condensedMeasures[..k]) + measureNotes[..n]
      {
        partCondensed := partCondensed + [measureNotes[n]];
      }
      assert measureNotes[..|measureNotes|] == measureNotes;
      assert condensedMeasures[..k + 1][..k] == condensedMeasures[..k];
    }
    assert condensedMeasures[..|condensedMeasures|] == condensedMeasures;
    JoinMeasureNotes(part.measures, condensedMeasures);
    return Ok(partCondensed);
  }

  /** The concatenation of note lists, in order. */
  function Join(xss: seq<seq<Note>>): seq<Note>
    decreases |xss|
  {
    if xss == [] then [] else Join(xss[..|xss| - 1]) + xss[|xss| - 1]
  }

  lemma {:induction false} JoinMeasureNotes(ms: seq<Measure>, xss: seq<seq<Note>>)
    requires |ms| == |xss|
    requires forall k :: 0 <= k < |ms| ==> Readable(ms[k]) && xss[k] == MeasureNotes(ms[k])
    decreases |ms|
    ensures Join(xss) == Condense(ms)
  {
    if ms != [] {
      JoinMeasureNotes(ms[..|ms| - 1], xss[..|xss| - 1]);
    }
  }

  /** The errors: a score without exactly one part; otherwise the first unusable measure
      decides, zero staves before a wrong voice count. */
  lemma VoiceArrayErrors(score: Score)
    ensures VoiceArray(score) == Err(MoreThanOnePart) <==> |score.parts| != 1
    ensures |score.parts| == 1 ==>
      (VoiceArray(score).Ok? <==> forall k :: 0 <= k < |score.parts[0].measures| ==> Readable(score.parts[0].measures[k]))
    ensures |score.parts| == 1 && VoiceArray(score).Err? ==>
      exists k :: (0 <= k < |score.parts[0].measures| &&
        MeasureError(score.parts[0].measures[k]) == Some(VoiceArray(score).error) &&
        forall l :: 0 <= l < k ==> Readable(score.parts[0].measures[l]))
  {
    if |score.parts| == 1 {
      FirstErrorFromFirst(score.parts[0].measures, 0);
      var e := FirstErrorFrom(score.parts[0].measures, 0);
      if e.Some? {
        assert e.value != MoreThanOnePart;
      }
    }
  }

  /** The notes of consecutive runs of measures are concatenated. */
  lemma {:induction false} CondenseAppend(xs: seq<Measure>, ys: seq<Measure>)
    requires forall k :: 0 <= k < |xs| ==> Readable(xs[k])
    requires forall k :: 0 <= k < |ys| ==> Readable(ys[k])
    decreases |ys|
    ensures forall k :: 0 <= k < |xs + ys| ==> Readable((xs + ys)[k])
    ensures Condense(xs + ys) == Condense(xs) + Condense(ys)
  {
    assert forall k :: 0 <= k < |xs + ys| ==> (xs + ys)[k] == if k < |xs| then xs[k] else ys[k - |xs|];
    if ys == [] {
      assert xs + ys == xs;
    } else {
      var front := ys[..|ys| - 1];
      assert (xs + ys)[..|xs + ys| - 1] == xs + front;
      CondenseAppend(xs, front);
    }
  }

  /** The result holds exactly as many notes as the measures' first-staff voices. */
  lemma {:induction false} CondenseLength(ms: seq<Measure>)
    requires forall k :: 0 <= k < |ms| ==> Readable(ms[k])
    decreases |ms|
    ensures |Condense(ms)| == NoteCount(ms)
  {
    if ms != [] {
      CondenseLength(ms[..|ms| - 1]);
    }
  }

  /** Each measure's notes appear whole in the result, after those of the measures before it. */
  lemma {:induction false} CondenseMeasure(ms: seq<Measure>, k: nat)
    requires forall l :: 0 <= l < |ms| ==> Readable(ms[l])
    requires k < |ms|
    decreases |ms|
    ensures NoteCount(ms[..k]) + |MeasureNotes(ms[k])| <= |Condense(ms)|
    ensures Condense(ms)[NoteCount(ms[..k])..NoteCount(ms[..k]) + |MeasureNotes(ms[k])|] == MeasureNotes(ms[k])
  {
    var front := ms[..|ms| - 1];
    CondenseLength(front);
    if k == |ms| - 1 {
      assert ms[..k] == front;
    } else {
      CondenseMeasure(front, k);
      assert front[..k] == ms[..k] && front[k] == ms[k];
      var c := Condense(front);
      var lo := NoteCount(ms[..k]);
      assert Condense(ms)[lo..lo + |MeasureNotes(ms[k])|] == c[lo..lo + |MeasureNotes(ms[k])|];
    }
  }

  /** Two measures that agree on whether they have a staff, and on their first staff. */
  predicate SameFirstStaff(x: Measure, y: Measure) {
    (|x.staves| == 0 <==> |y.staves| == 0) && (|x.staves| > 0 ==> x.staves[0] == y.staves[0])
  }

  /** Only the first staff of each measure is read: two one-part scores whose measures
      agree on that staff, and on whether there is one, give the same result. */
  lemma OnlyFirstStaffRead(a: Score, b: Score)
    requires |a.parts| == 1 && |b.parts| == 1
    requires |a.parts[0].measures| == |b.parts[0].measures|
    requires forall k :: 0 <= k < |a.parts[0].measures| ==>
      SameFirstStaff(a.parts[0].measures[k], b.parts[0].measures[k])
    ensures VoiceArray(a) == VoiceArray(b)
  {
    var xs, ys := a.parts[0].measures, b.parts[0].measures;
    SameFirstErrors(xs, ys, 0);
    FirstErrorFromFirst(xs, 0);
    if FirstErrorFrom(xs, 0).None? {
      SameCondense(xs, ys);
    }
  }

  lemma {:induction false} SameFirstErrors(xs: seq<Measure>, ys: seq<Measure>, k: nat)
    requires |xs| == |ys| && k <= |xs|
    requires forall l :: 0 <= l < |xs| ==> SameFirstStaff(xs[l], ys[l])
    decreases |xs| - k
    ensures FirstErrorFrom(xs, k) == FirstErrorFrom(ys, k)
  {
    if k < |xs| {
      SameFirstErrors(xs, ys, k + 1);
    }
  }

  lemma {:induction false} SameCondense(xs: seq<Measure>, ys: seq<Measure>)
    requires |xs| == |ys|
    requires forall l :: 0 <= l < |xs| ==> Readable(xs[l]) && SameFirstStaff(xs[l], ys[l])
    decreases |xs|
    ensures forall l :: 0 <= l < |ys| ==> Readable(ys[l])
    ensures Condense(xs) == Condense(ys)
  {
    if xs != [] {
      SameCondense(xs[..|xs| - 1], ys[..|ys| - 1]);
    }
  }
}
