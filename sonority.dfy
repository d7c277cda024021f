/** Harmonic intervals between two simultaneous notes, and the sonority object that stores
    the interval of a pair of notes together with the motion of each voice into it. */
module Sonorities {
  import opened Wrappers
  import opened CppInt
  import opened MxApi

  /** (diatonic number, semitones): a diatonic number of 0 is a unison, 4 a fifth, 7 an octave. */
  type Interval = (int, int)

  /** What an interval with a rest in it reports. */
  const RestCode := -1000

  /** Semitones of the white key of each step above C. */
  function WhiteKey(s: Step): (k: int)
    ensures 0 <= k <= 11
  {
    [0, 2, 4, 5, 7, 9, 11][s]
  }

  /** The pitch class the tritone test uses: C++ remainder of white key + alter + 12 by 12. */
  function PitchCode(p: Pitch): (c: int)
    ensures -12 < c < 12
    ensures p.alter >= -12 ==> c == (WhiteKey(p.step) + p.alter) % 12
  {
    Rem(WhiteKey(p.step) + p.alter + 12, 12)
  }

  /** Diatonic position of a pitch: seven steps to the octave. */
  function DiatonicIndex(p: Pitch): int {
    7 * p.octave + p.step
  }

  /** Chromatic position of a pitch: twelve semitones to the octave. */
  function ChromaticIndex(p: Pitch): int {
    12 * p.octave + WhiteKey(p.step) + p.alter
  }

  predicate EitherRest(n1: Note, n2: Note) {
    n1.isRest || n2.isRest
  }

  /** interval(note_1, note_2, number_signed): the diatonic number from note 1 up to note 2
      and whether the two pitch classes are a tritone apart. Despite its name, a true
      `numberSigned` makes the number an absolute value. */
  function IntervalWithTritone(n1: Note, n2: Note, numberSigned: bool): (r: (int, bool))
    ensures EitherRest(n1, n2) ==> r == (RestCode, false)
    ensures !EitherRest(n1, n2) ==>
      r.0 == (if numberSigned then Abs(DiatonicIndex(n2.pitch) - DiatonicIndex(n1.pitch))
              else DiatonicIndex(n2.pitch) - DiatonicIndex(n1.pitch))
    ensures !EitherRest(n1, n2) ==> (r.1 <==> Abs(PitchCode(n2.pitch) - PitchCode(n1.pitch)) == 6)
  {
    if n1.isRest || n2.isRest then (RestCode, false)
    else
      var signedNumber := (n2.pitch.step + 7 * (n2.pitch.octave - n1.pitch.octave)) - n1.pitch.step;
      var tritone := Abs(PitchCode(n2.pitch) - PitchCode(n1.pitch)) == 6;
      (if numberSigned then Abs(signedNumber) else signedNumber, tritone)
  }

  /** get_interval(note_1, note_2, number_signed), the pair-valued interval the sonority
      object stores. Only its declaration exists; the diatonic number is the one computed
      above, and the semitone count is the chromatic distance between the two pitches. */
  function GetInterval(n1: Note, n2: Note, numberSigned: bool): (r: Interval)
    ensures EitherRest(n1, n2) ==> r == (RestCode, RestCode)
    ensures !EitherRest(n1, n2) ==> r.0 == IntervalWithTritone(n1, n2, numberSigned).0
    ensures !EitherRest(n1, n2) && numberSigned ==> r.0 >= 0 && r.1 >= 0
  {
    if n1.isRest || n2.isRest then (RestCode, RestCode)
    else
      var number := DiatonicIndex(n2.pitch) - DiatonicIndex(n1.pitch);
      var semitones := ChromaticIndex(n2.pitch) - ChromaticIndex(n1.pitch);
      if numberSigned then (Abs(number), Abs(semitones)) else (number, semitones)
  }

  /** The compound interval reduced within the octave by C++ remainder, component by
      component: bounded by 7 and 12, sign kept, and congruent to the compound interval. */
  function SimpleInterval(compound: Interval): (s: Interval)
    ensures -7 < s.0 < 7 && -12 < s.1 < 12
    ensures (compound.0 >= 0 ==> s.0 >= 0) && (compound.0 <= 0 ==> s.0 <= 0)
    ensures (compound.1 >= 0 ==> s.1 >= 0) && (compound.1 <= 0 ==> s.1 <= 0)
    ensures (compound.0 - s.0) % 7 == 0 && (compound.1 - s.1) % 12 == 0
  {
    (Rem(compound.0, 7), Rem(compound.1, 12))
  }

  /** A pair of simultaneous notes at one tick (id), with its place in the rhythmic
      hierarchy (0 is the weakest level) and the motion of each voice. */
  class Sonority {
    const id: int
    const note1: Note
    const note2: Note
    const rhythmicHierarchy: int
    const compoundInterval: Interval
    const simpleInterval: Interval
    var note1Motion: Interval
    var note2Motion: Interval

    constructor (note1: Note, note2: Note, rhythmicHierarchy: int, id: int)
      ensures this.note1 == note1 && this.note2 == note2
      ensures this.rhythmicHierarchy == rhythmicHierarchy && this.id == id
      ensures compoundInterval == GetInterval(note1, note2, false)
      ensures simpleInterval == SimpleInterval(GetInterval(note1, note2, false))
      ensures Valid()
      ensures note1Motion == (0, 0) && note2Motion == (0, 0)
    {
      this.note1 := note1;
      this.note2 := note2;
      this.rhythmicHierarchy := rhythmicHierarchy;
      this.id := id;
      compoundInterval := GetInterval(note1, note2, false);
      simpleInterval := SimpleInterval(GetInterval(note1, note2, false));
      note1Motion := (0, 0);
      note2Motion := (0, 0);
    }

    /** The intervals are those of the two notes, as the member initialisers compute them. */
    predicate Valid() {
      compoundInterval == GetInterval(note1, note2, false) && simpleInterval == SimpleInterval(compoundInterval)
    }

    /** get_note(voice): voice 0 or 1, anything else an error. */
    function GetNote(voice: int): (r: Result<Note>)
      ensures r.Ok? <==> voice == 0 || voice == 1
      ensures r.Ok? ==> r.value == if voice == 0 then note1 else note2
      ensures r.Err? ==> r.error == InvalidVoiceIndex
    {
      if voice == 0 then Ok(note1)
      else if voice == 1 then Ok(note2)
      else Err(InvalidVoiceIndex)
    }

    /** get_note_motion(voice): the motion of voice 0 or 1, anything else an error. */
    function GetNoteMotion(voice: int): (r: Result<Interval>)
      reads this
      ensures r.Ok? <==> voice == 0 || voice == 1
      ensures r.Ok? ==> r.value == if voice == 0 then note1Motion else note2Motion
      ensures r.Err? ==> r.error == InvalidVoiceIndex
    {
      if voice == 0 then Ok(note1Motion)
      else if voice == 1 then Ok(note2Motion)
      else Err(InvalidVoiceIndex)
    }

    /** build_movement_data(next): each voice's motion is the unsigned interval between its
        note here and its note in the next sonority. */
    method BuildMotionData(next: Sonority)
      modifies this
      ensures note1Motion == GetInterval(next.note1, note1, true)
      ensures note2Motion == GetInterval(next.note2, note2, true)
    {
      note1Motion := GetInterval(next.note1, note1, true);
      note2Motion := GetInterval(next.note2, note2, true);
    }
  }

  /** is_identical: the same pitches and rest flags in both voices. */
  predicate IsIdentical(a: Sonority, b: Sonority): (r: bool)
    ensures r ==> GetInterval(a.note1, a.note2, false) == GetInterval(b.note1, b.note2, false)
    ensures r ==> IntervalWithTritone(a.note1, a.note2, false) == IntervalWithTritone(b.note1, b.note2, false)
  {
    a.note1.pitch == b.note1.pitch && a.note1.isRest == b.note1.isRest &&
    a.note2.pitch == b.note2.pitch && a.note2.isRest == b.note2.isRest
  }

  lemma IsIdenticalEquivalence(a: Sonority, b: Sonority, c: Sonority)
    ensures IsIdentical(a, a)
    ensures IsIdentical(a, b) ==> IsIdentical(b, a)
    ensures IsIdentical(a, b) && IsIdentical(b, c) ==> IsIdentical(a, c)
  {
  }

  /** Identical sonorities have the same intervals: the interval ignores durations, ties and positions. */
  lemma IdenticalSameIntervals(a: Sonority, b: Sonority)
    requires a.Valid() && b.Valid() && IsIdentical(a, b)
    ensures a.compoundInterval == b.compoundInterval && a.simpleInterval == b.simpleInterval
  {
  }

  /** Swapping the notes negates the unsigned-flag-off number and keeps the tritone test. */
  lemma IntervalSwap(n1: Note, n2: Note)
    requires !EitherRest(n1, n2)
    ensures IntervalWithTritone(n2, n1, false).0 == -IntervalWithTritone(n1, n2, false).0
    ensures IntervalWithTritone(n2, n1, false).1 == IntervalWithTritone(n1, n2, false).1
    ensures IntervalWithTritone(n2, n1, true) == IntervalWithTritone(n1, n2, true)
  {
  }

  /** Motion does not record direction, and a voice that repeats its pitch has motion zero. */
  lemma MotionUndirected(n1: Note, n2: Note)
    ensures GetInterval(n1, n2, true) == GetInterval(n2, n1, true)
    ensures !n1.isRest ==> GetInterval(n1, n1.(duration := n2.duration), true) == (0, 0)
  {
  }

  /** For pitches altered by at most an octave downwards, the tritone test of interval
      agrees with the semitone component of the simple interval being six either way. */
  lemma TritoneIffSixSemitones(n1: Note, n2: Note)
    requires !EitherRest(n1, n2) && n1.pitch.alter >= -12 && n2.pitch.alter >= -12
    ensures IntervalWithTritone(n1, n2, false).1 <==>
      (SimpleInterval(GetInterval(n1, n2, false)).1 == 6 || SimpleInterval(GetInterval(n1, n2, false)).1 == -6)
  {
    var w1 := WhiteKey(n1.pitch.step) + n1.pitch.alter;
    var w2 := WhiteKey(n2.pitch.step) + n2.pitch.alter;
    var c1 := PitchCode(n1.pitch);
    var c2 := PitchCode(n2.pitch);
    var semitones := GetInterval(n1, n2, false).1;
    assert w1 == 12 * (w1 / 12) + c1 && w2 == 12 * (w2 / 12) + c2;
    SameModTwelve(semitones, c2 - c1, n2.pitch.octave - n1.pitch.octave + w2 / 12 - w1 / 12);
    SixApart(c2 - c1);
    RemSix(semitones);
  }

  lemma SameModTwelve(a: int, b: int, k: int)
    requires a == b + 12 * k
    ensures a % 12 == b % 12
  {
  }

  lemma SixApart(d: int)
    requires -12 < d < 12
    ensures Abs(d) == 6 <==> d % 12 == 6
  {
  }

  lemma RemSix(x: int)
    ensures (Rem(x, 12) == 6 || Rem(x, 12) == -6) <==> x % 12 == 6
  {
  }

  /** A sonority with a rest in it reduces to (-6, -4) under the C++ remainder, so it is
      never taken for a fifth (7 semitones) or an octave (0) by the parallel checks. */
  lemma RestNeverPerfect(a: Sonority)
    requires a.Valid() && (a.note1.isRest || a.note2.isRest)
    ensures a.simpleInterval == (-6, -4)
    ensures a.simpleInterval.1 != 7 && a.simpleInterval.1 != 0
  {
    assert a.compoundInterval == (RestCode, RestCode);
  }

  /** A fifth is seven semitones upwards only: the semitone test reads a descending fifth as -7. */
  lemma DescendingFifthNotSeven(n1: Note, n2: Note)
    requires !EitherRest(n1, n2)
    requires ChromaticIndex(n2.pitch) == ChromaticIndex(n1.pitch) - 7
    ensures SimpleInterval(GetInterval(n1, n2, false)).1 == -7
  {
  }
}
