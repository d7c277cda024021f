/** The note record and score tree of the music-notation library, as plain values.
    Only the fields the core reads or writes are kept. */
module MxApi {

  /** Diatonic step, 0 to 6 for C, D, E, F, G, A, B. */
  type Step = s: int | 0 <= s <= 6

  datatype Pitch = Pitch(step: Step, alter: int, octave: int)

  datatype DurationName = Unspecified | Breve | Whole | Half | Quarter | Eighth | Dur16th | Dur32nd

  datatype Duration = Duration(name: DurationName, dots: int, timeTicks: int)

  datatype Note = Note(
    pitch: Pitch,
    duration: Duration,
    isRest: bool,
    isTieStart: bool,
    isTieStop: bool,
    tickTimePosition: int)

  datatype TimeSignature = TimeSignature(beats: int, beatType: int)

  datatype Voice = Voice(notes: seq<Note>)
  datatype Staff = Staff(voices: seq<Voice>)
  datatype Measure = Measure(staves: seq<Staff>)
  datatype Part = Part(measures: seq<Measure>)
  datatype Score = Score(parts: seq<Part>)

  /** A default-constructed note. The library's default pitch and duration values
      are not part of this model; the core never reads a rest's pitch, and every
      duration it writes is set explicitly. */
  const DefaultNote: Note :=
    Note(Pitch(0, 0, 4), Duration(Unspecified, 0, 0), false, false, false, 0)
}
