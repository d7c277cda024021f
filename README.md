# canon-generator core, modelled in Dafny

The canon generator reads a one-part MusicXML melody (the leader) and turns it into a canon.
It derives a follower by shifting the leader: diatonically within the key signature, and
later in time by a number of ticks. It then checks the parts against the rules of
species counterpoint. This project models the computational core of that program and proves
properties about it:

- **Pitch, duration and shift engine** (`canon_generator.dfy`, module `CanonGenerator`):
  - the key-signature alteration table `alters_by_key`;
  - the tick-to-named-duration lookup `ticks_to_duration_data` and `get_last_key_before`;
  - the recursive tie-splitting `split_note`;
  - the vertical and horizontal `shift` of a voice;
  - the loop in `main` that expands every voice to one entry per tick.
- **Sonority** (`sonority.dfy`, module `Sonorities`): the interval between two simultaneous
  notes, with its tritone test, and its reduction within the octave. Also the `Sonority`
  object: constant id, notes, rhythmic level and intervals, plus two mutable motion fields.
  It covers the accessors that fail on a bad voice index, `is_identical` and
  `build_movement_data`.
- **Counterpoint checker** (`counterpoint_checker.dfy`, module `CounterpointChecker`):
  - the error and warning boxes that keep one message per pair of sonority ids;
  - the scan of a sonority sequence for parallel fifths and octaves between adjacent
    sonorities, from a weak beat to the next downbeat, and between consecutive upbeats;
  - `check_counterpoint`, which scans every sonority array into shared boxes.
- **File reader** (`file_reader.dfy`, module `FileReader`): `create_voice_array`. It checks a
  score's part, staff and voice structure and concatenates the notes of every measure into
  one voice.

Supporting modules:

- `MxApi` (`mx_api.dfy`) holds the notation library's note record and score tree as plain
  values.
- `Wrappers` (`wrappers.dfy`) holds the error outcomes. Each exception message the core can
  throw is one constructor of `Error`, and a throwing operation returns a `Result`.
- `CppInt` (`cpp_int.dfy`) holds C++'s truncating `/` and `%`.

Imperative code is modelled as methods with loops, each proved equal to a specification
function:

- `alters_by_key` increments an array;
- `shift` updates notes in place and grows a rest vector;
- the message boxes are vectors appended in place, modelled as a class;
- the scan is nested index loops;
- `create_voice_array` has two loop nests.

Properties are proved about those functions as lemmas.

Model details:

- **Durations and fuel.** The duration lookup divides as C++ does. The recursion of
  `split_note` carries a fuel bound. `RecursionLimit` stands for a recursion in the source
  that never comes back.
- **`get_last_key_before`.** Its name suggests a key strictly below `t`. The code in
  canon_generator.cpp:98-101 returns the largest key at most `t`, so `t` itself when `t` is
  a key, and the model follows the code.
- **The older copies in canon_generator.cpp.** The `interval` helper at
  canon_generator.cpp:262-294 is the same computation as sonority.cpp:15-47. Both are
  modelled by `Sonorities.IntervalWithTritone`.
- **The sonority layout.** The layout is that of sonority.h: an id, two notes, and compound
  and simple intervals as `(int, int)` pairs. The header only declares `get_interval`, so its
  semitone component is reconstructed: the chromatic distance `12 * octave + white key +
  alter` between the two pitches. A rest gives `(-1000, -1000)`. The diatonic component is
  the one `interval` computes.
- **Shift, as written and corrected.** `split_note` as written is defective (see
  "## Findings"), and `shift` builds its rest prefix with it. `CanonGenerator.Shift` takes a
  flag that selects the split: `false` is the program as written, whose rests can diverge or
  overfill, and `true` uses the corrected split, for which the rest prefix is proved to
  last exactly the shift.
- **Constructor-set intervals.** The intervals are constants assigned by the constructor.
  The predicate `Valid()` restates the member initialisers (sonority.h:86-87) for lemmas
  that take a sonority as a parameter.

## Model

| member | source | states |
|---|---|---|
| CppInt.Abs | sonority.cpp:44 | the result is the argument or its negation, and never negative |
| CppInt.Quot | canon_generator.cpp:38 | C++ division by a positive divisor: magnitude is the floor of the magnitudes, sign follows the dividend (truncation toward zero) |
| CppInt.Rem | canon_generator.cpp:129 | C++ remainder by a positive divisor: strictly between -b and b, sign of the dividend, agrees with the Euclidean remainder for non-negative dividends and is its negation on the magnitude otherwise |
| CanonGenerator.AltersByKey | canon_generator.cpp:17-34 | the in-place array loop returns, for every step, the number of sharps (flats, negated) whose cell formula lands on that step; a seventh sharp would write index -1, so fifths <= 6 is required |
| CanonGenerator.KeyAltersNatural | canon_generator.cpp:17-33 | no sharps or flats gives seven zeros |
| CanonGenerator.KeyAltersSharps | canon_generator.cpp:26-30 | with 1 to 6 sharps, exactly the first `fifths` steps of the order F, C, G, D, A, E are raised by one and the others stay 0 |
| CanonGenerator.KeyAltersFlats | canon_generator.cpp:20-24 | with 1 to 7 flats, exactly the first `-fifths` steps of the order B, E, A, D, G, C, F are lowered by one and the others stay 0 |
| CanonGenerator.TableLengths | canon_generator.cpp:42-61 | every table entry names a real duration with 0 to 2 dots, and that name with its dots lasts exactly the key's number of 32nd notes |
| CanonGenerator.TicksToDurationData | canon_generator.cpp:36-72 | succeeds exactly when ticks times the 32nds per tick (truncating division) is a table key; then the duration keeps the tick count and has a named value with 0 to 2 dots; otherwise the error is "Invalid duration!" |
| CanonGenerator.TicksToDurationDataLength | canon_generator.cpp:36-72 | a successful lookup returns the table entry of the note's length in 32nds, and that entry lasts exactly that length |
| CanonGenerator.DurationKeysAreTableKeys | canon_generator.cpp:99 | the key list of get_last_key_before is strictly ascending and holds exactly the keys of the duration table |
| CanonGenerator.LastKeyBefore | canon_generator.cpp:98-101 | for t >= 1, get_last_key_before returns a table key between 1 and t |
| CanonGenerator.KeyAlters | canon_generator.cpp:17-34 | an independent definition of the table, one alteration per step, seven in all, which AltersByKey is proved to compute |
| CanonGenerator.LastKeyAtMost | canon_generator.cpp:98-101 | a downward search from t that returns a table key between 1 and t |
| CanonGenerator.LastKeyAtMostLargest | canon_generator.cpp:98-101 | no table key at most t is larger than the key returned |
| CanonGenerator.LastKeyBeforeIsLastKeyAtMost | canon_generator.cpp:98-101 | the reversed-list search of the source equals the largest table key at most t |
| CanonGenerator.LastKeyAtMostExact | canon_generator.cpp:98-101 | a t that is itself a key is returned unchanged |
| CanonGenerator.LastKeyAtMostAbove | canon_generator.cpp:98-101 | every t of 112 or more gives 112 |
| CanonGenerator.FirstPart | canon_generator.cpp:106-121 | the first block of split_note yields at least one fragment or fails only by the recursion limit |
| CanonGenerator.RestPart | canon_generator.cpp:123-138 | the second block yields at least one fragment or fails only by the recursion limit |
| CanonGenerator.SecondPart | canon_generator.cpp:124-129 | the second half starts as a copy of the original note, so it keeps its tie-start, is marked tie-stop, and sits at the C++ remainder of the previous fragment's end by the measure length |
| CanonGenerator.SplitNoteWith | canon_generator.cpp:103-141 | a successful split has at least two fragments; the only failure is the recursion limit |
| CanonGenerator.SplitNoteAsWritten | canon_generator.cpp:103-141 | split_note as written: at least two fragments, or the recursion limit |
| CanonGenerator.SplitNote | canon_generator.cpp:103-141 | split_note with the second-half branch corrected: at least two fragments, or the recursion limit |
| CanonGenerator.SplitNoteTwoParts | canon_generator.cpp:103-131 | when both halves are table durations the split is exactly two notes of f and n - f ticks; the first is n tie-started, the second is n tie-stopped (keeping n's tie-start) at position (n's position + f) mod ticks per measure |
| CanonGenerator.SplitNoteWithParts | canon_generator.cpp:103-140 | a successful split is a successful first block followed by a successful second block, concatenated |
| CanonGenerator.FirstPartSound | canon_generator.cpp:106-121 | a successful first block is a chain of tied table-duration fragments of n's pitch lasting f ticks, all tie-started, the first keeping n's tie-stop and position |
| CanonGenerator.RestPartSound | canon_generator.cpp:123-138 | a successful corrected second block is a chain of tied table-duration fragments of the second note lasting the remaining ticks, keeping its tie-stop, position and tie-start |
| CanonGenerator.MarkedFirstPart | canon_generator.cpp:114-120 | re-split fragments of the note cut to f ticks, all marked tie-start, satisfy the first block's guarantee |
| CanonGenerator.JoinParts | canon_generator.cpp:123-140 | a valid first block followed by a valid second block is a complete decomposition of n |
| CanonGenerator.PartsSound | canon_generator.cpp:103-141 | the blocks a successful corrected split is made of join into a complete decomposition |
| CanonGenerator.SplitNoteSound | canon_generator.cpp:103-141 | every successful corrected split is a complete decomposition: two or more tied fragments with n's pitch and rest flag, table durations, consecutive positions, lasting exactly n's ticks, first keeping n's tie-stop and position, last keeping n's tie-start |
| CanonGenerator.SplitNoteTotal | canon_generator.cpp:103-141 | when a tick is one 32nd note, the corrected split always succeeds given one level of fuel per tick |
| CanonGenerator.SplitNoteAsWrittenOverfills | canon_generator.cpp:133-137 | as written, a 10-tick note split after 1 tick (32 ticks to a 4/4 measure) yields four fragments lasting 21 ticks |
| CanonGenerator.OverfillsTail | canon_generator.cpp:130-138 | in that example the second block keeps the failed 10-tick note and adds the two pieces of its re-split: three fragments, 20 ticks |
| CanonGenerator.SplitNoteAsWrittenDiverges | canon_generator.cpp:133-137 | as written, a 9-tick note split after 4 ticks in that meter hits the recursion limit for every fuel |
| CanonGenerator.SplitNoteCorrectedFills | canon_generator.cpp:103-141 | the corrected split of the 10-tick example succeeds and lasts exactly 10 ticks |
| CanonGenerator.LastFragmentShorter | canon_generator.cpp:103-141 | the last fragment of a complete decomposition is at least one tick long and shorter than the note |
| CanonGenerator.SplitNoteShape | canon_generator.cpp:103-141 | whenever either form of split_note returns, every fragment keeps the note's rest flag and the last one is at least one tick long and shorter than the note, so each pass of shift's rest loop shortens the last rest |
| CanonGenerator.Transposed | canon_generator.cpp:151-166 | a transposed note's 7 * octave + step moves by exactly v, its alteration is alters_by_key of its new step, and every other field is unchanged |
| CanonGenerator.TransposedBack | canon_generator.cpp:151-163 | transposing by v and then by -v restores step and octave |
| CanonGenerator.TransposeNote | canon_generator.cpp:151-166 | the step arithmetic with remainder, octave carry and key lookup equals Transposed |
| CanonGenerator.VerticallyShifted | canon_generator.cpp:145-168 | the note count is unchanged, and a zero vertical shift returns the voice itself |
| CanonGenerator.TransposeVoice | canon_generator.cpp:145-168 | an out-of-range shift of a non-empty voice raises the vertical-shift error; otherwise every note is transposed in place (an empty voice is never rejected) |
| CanonGenerator.Moved | canon_generator.cpp:173 | only the tick position changes, to the C++ remainder of position + h by the measure length |
| CanonGenerator.HorizontallyMoved | canon_generator.cpp:172-174 | one moved note per note of the voice |
| CanonGenerator.MoveVoice | canon_generator.cpp:172-174 | the position loop moves every note, in order |
| CanonGenerator.OriginalRest | canon_generator.cpp:176-178 | the rest that starts the prefix is a rest lasting h ticks |
| CanonGenerator.ReplaceLastTotal | canon_generator.cpp:181-187 | replacing the last rest by fragments of the same length keeps the total |
| CanonGenerator.SplitLongRests | canon_generator.cpp:180-188 | the while loop, with either split: when it ends, the rests are still rests and the last one lasts between 1 and ticks-per-measure ticks; the only failure is the recursion limit |
| CanonGenerator.LeadingRestsOf | canon_generator.cpp:176-196 | the rest prefix with either split: the loop for more than a measure, the looked-up rest, or the catch branch's split at get_last_key_before(h); when found it is all rests, the last one within a measure |
| CanonGenerator.LeadingRests | canon_generator.cpp:176-196 | the loop and the catch branch return exactly LeadingRestsOf with the chosen split |
| CanonGenerator.LeadingRestsCorrect | canon_generator.cpp:176-196 | with the corrected split, found rests have looked-up durations and last exactly h ticks in all, and they are always found when a tick is one 32nd |
| CanonGenerator.SplitLongRestsCorrect | canon_generator.cpp:180-188 | with the corrected split, the loop keeps its invariant: rests lasting h ticks, all looked up except a last one still longer than a measure |
| CanonGenerator.SplitNoteAsWrittenCycles | canon_generator.cpp:133-137 | as written, a 21-tick note split at 4 or 16 ticks, 32 ticks to a 4/4 measure, hits the recursion limit for every fuel |
| CanonGenerator.LeadingRestsAsWrittenDiverges | canon_generator.cpp:189-195 | as written, the rests for a 21-tick shift in that meter never come back, while the corrected rests are found |
| CanonGenerator.LeadingRestsAsWrittenOverfills | canon_generator.cpp:180-188 | as written, the rests for a 112-tick shift in that meter are five rests lasting 256 ticks |
| CanonGenerator.OverfillsMeasure | canon_generator.cpp:103-141 | as written, that 112-tick rest split after 32 ticks gives rests of 32, 112, 64 and 48 ticks |
| CanonGenerator.OverfillsLastRest | canon_generator.cpp:180-188 | the loop then splits the trailing 48 ticks into 32 and 16 and stops, five rests of 256 ticks in all |
| CanonGenerator.Shift | canon_generator.cpp:143-217 | the vertical-shift error exactly for a non-empty voice with a shift outside -6..6; without a horizontal shift a legal shift returns the transposed voice whatever the meter, and no shift at all returns it unchanged; a horizontal shift returns the rests of LeadingRestsOf followed by the transposed notes in order, each moved h ticks modulo the measure, or the rests' failure; with the corrected split the rests last exactly h ticks and success is certain when a tick is one 32nd |
| CanonGenerator.Expanded | canon_generator.cpp:369-377 | every entry of a voice expanded by tick is one of the voice's notes |
| CanonGenerator.NotesByTick | canon_generator.cpp:368-377 | every voice is expanded to its notes repeated once per tick, in order |
| CanonGenerator.ExpandedAppend | canon_generator.cpp:371-375 | expanding a concatenation is concatenating the expansions |
| CanonGenerator.ExpandedLength | canon_generator.cpp:371-375 | a voice without negative durations has as many ticks as its durations add up to |
| CanonGenerator.ExpandedRests | canon_generator.cpp:371-375 | an expanded run of rests is rests at every tick |
| CanonGenerator.FollowerEntersLate | canon_generator.cpp:209 | a voice behind a rest prefix of h ticks is silent for its first h ticks and is then the expansion of the original notes |
| Sonorities.WhiteKey | sonority.cpp:25-33 | every step maps to a semitone value between 0 and 11 |
| Sonorities.PitchCode | sonority.cpp:34-35 | the pitch code is a C++ remainder by 12, so strictly between -12 and 12, and it is the pitch class for alterations down to an octave flat |
| Sonorities.IntervalWithTritone | sonority.cpp:15-47 | a rest gives (-1000, false); otherwise the number is the diatonic distance from note 1 to note 2, made absolute when the flag is set, and the tritone flag holds exactly when the pitch codes differ by 6 |
| Sonorities.GetInterval | sonority.h:16 | a rest gives (-1000, -1000); otherwise the number is that of interval, and with the flag both components are non-negative |
| Sonorities.SimpleInterval | sonority.h:87 | each component is reduced by C++ remainder (7 and 12): below 7 and 12 in magnitude, sign kept, congruent to the compound interval |
| Sonorities.Sonority.constructor | sonority.h:83-90 | the notes, rhythmic level and id are stored unchanged, the compound interval is get_interval of the notes without the flag and the simple interval its reduction, and both motions start at (0, 0) |
| Sonorities.Sonority.GetNote | sonority.h:38-48 | voice 0 gives note 1 and voice 1 note 2; every other index fails with "Invalid voice index!" |
| Sonorities.Sonority.GetNoteMotion | sonority.h:66-76 | voice 0 gives the first motion and voice 1 the second; every other index fails with "Invalid voice index!" |
| Sonorities.Sonority.BuildMotionData | sonority.cpp:10-13 | each voice's motion becomes the unsigned interval from its note in the next sonority to its note here; nothing else of the object can change |
| Sonorities.IsIdentical | sonority.cpp:49-53 | identical sonorities have the same interval, with and without the tritone flag: durations, ties and positions play no part |
| Sonorities.IsIdenticalEquivalence | sonority.cpp:49-53 | is_identical is reflexive, symmetric and transitive |
| Sonorities.IdenticalSameIntervals | sonority.cpp:49-53 | identical sonorities have the same compound and simple intervals |
| Sonorities.IntervalSwap | sonority.cpp:22-41 | swapping the notes negates the number without the flag, keeps the tritone test, and leaves the flagged result unchanged |
| Sonorities.MotionUndirected | sonority.cpp:10-13 | motion is the same in both directions, and a repeated pitch gives motion zero |
| Sonorities.TritoneIffSixSemitones | sonority.cpp:34-36 | for alterations down to an octave flat, the tritone test agrees with the simple interval being six semitones either way |
| Sonorities.RestNeverPerfect | sonority.h:86-87 | a sonority with a rest reduces to (-6, -4), so it is never a fifth or an octave |
| Sonorities.DescendingFifthNotSeven | sonority.h:87 | a fifth downwards reduces to -7 semitones, which the parallel tests do not read as a fifth |
| CounterpointChecker.WithError | counterpoint_checker.cpp:20-29 | sending an error keeps the old box as a prefix and adds at most one message |
| CounterpointChecker.WithErrorAppendsIffNew | counterpoint_checker.cpp:20-29 | sending an error keeps the box as a prefix and appends the error exactly when no error with the same id pair is there; the pair is present afterwards |
| CounterpointChecker.SendErrorMessage | counterpoint_checker.cpp:20-29 | the scan-then-append method leaves exactly WithError of the old box |
| CounterpointChecker.WithWarning | counterpoint_checker.cpp:31-45 | a warning is appended exactly when neither a warning nor an error with the same id pair exists; the box is otherwise unchanged |
| CounterpointChecker.SendWarningMessage | counterpoint_checker.cpp:31-45 | the two scans and the append leave exactly WithWarning of the old boxes; the error box is not written |
| CounterpointChecker.MessageBox.constructor | counterpoint_checker.cpp:151-152 | a new box is empty |
| CounterpointChecker.SendAllKeepsBox | counterpoint_checker.cpp:20-29 | a batch of sends keeps the old box in place as a prefix and adds at most one message per message sent |
| CounterpointChecker.SendAllIndexPairs | counterpoint_checker.cpp:20-29 | the id pairs of the box afterwards are exactly the old pairs plus the pairs sent |
| CounterpointChecker.SendAllCovers | counterpoint_checker.cpp:20-29 | every message sent has its id pair in the box afterwards |
| CounterpointChecker.WithErrorNoDuplicates | counterpoint_checker.cpp:21-28 | one send keeps the id pairs of the box distinct |
| CounterpointChecker.SendAllNoDuplicates | counterpoint_checker.cpp:21-28 | after any sequence of sends no two errors share an id pair |
| CounterpointChecker.SendAllAppend | counterpoint_checker.cpp:21-28 | sending a batch is sending its two halves in turn |
| CounterpointChecker.SendAllPresent | counterpoint_checker.cpp:21-28 | messages whose pairs are all present change nothing |
| CounterpointChecker.SendAllResend | counterpoint_checker.cpp:21-28 | resending the same messages is a no-op |
| CounterpointChecker.WarningsApartFromErrors | counterpoint_checker.cpp:31-45 | a warning box with distinct pairs and no pair in common with the errors keeps both properties |
| CounterpointChecker.ParallelMessages | counterpoint_checker.cpp:63-68 | at most one message; there is one exactly when both simple intervals are 7 semitones or both are 0; it carries the two ids and says fifths when they are 7, octaves otherwise |
| CounterpointChecker.SizeT | counterpoint_checker.cpp:80 | an int converted to a 64-bit size_t: unchanged when non-negative, plus 2^64 when negative |
| CounterpointChecker.DownbeatFrom | counterpoint_checker.cpp:77-103 | the first sonority the search reaches that is on a stronger level and consonant, with every sonority before it reached and not such a downbeat; or none, when every such downbeat lies beyond a stop of the search |
| CounterpointChecker.UpbeatFrom | counterpoint_checker.cpp:107-118 | the first later sonority on the same rhythmic level, or none when there is no such sonority |
| CounterpointChecker.IterationMessages | counterpoint_checker.cpp:48-118 | an iteration with a rest among the four notes sends nothing; otherwise at most three messages, all about the current sonority |
| CounterpointChecker.ScanMessages | counterpoint_checker.cpp:47-118 | a single sonority sends nothing; every message the scan sends is about a sonority other than the last whose pair with the next has no rest |
| CounterpointChecker.SendParallel | counterpoint_checker.cpp:63-68 | the fifths-then-octaves test sends exactly ParallelMessages |
| CounterpointChecker.ScanDownbeats | counterpoint_checker.cpp:71-104 | the gated downbeat search, with its level vector and break, sends exactly the message for the first downbeat found, if any |
| CounterpointChecker.ScanUpbeats | counterpoint_checker.cpp:107-118 | the upbeat loop sends exactly the message for the first later sonority on the same level, then stops |
| CounterpointChecker.CheckIteration | counterpoint_checker.cpp:49-118 | one iteration sends the adjacent, downbeat and upbeat messages in that order and changes no sonority |
| CounterpointChecker.CheckVoiceIndependence | counterpoint_checker.cpp:47-143 | the scan sends, in order, the messages of every iteration but the last sonority's, into the error box, and changes no sonority |
| CounterpointChecker.CheckCounterpoint | counterpoint_checker.cpp:145-162 | the returned errors are every array's scan sent in turn into one box, so no id pair is reported twice, even across arrays; no warning is returned |
| CounterpointChecker.AdjacentParallelsReported | counterpoint_checker.cpp:55-68 | adjacent sonorities without rests that are both fifths or both octaves always end up reported by their pair of ids |
| CounterpointChecker.UpbeatFirstOnly | counterpoint_checker.cpp:107-118 | an upbeat message is about the first later sonority on the same level, with none on that level in between |
| FileReader.MeasureError | file_reader.cpp:67-78 | a measure is rejected exactly when it has no staff ("Zero staves found!") or its first staff does not have exactly one voice ("Part doesn't have exactly one voice!"), the staff test first |
| FileReader.FirstErrorFromFirst | file_reader.cpp:67-83 | the pass over the measures fails exactly when some measure is rejected, with the error of the first rejected one |
| FileReader.VoiceArray | file_reader.cpp:57-95 | a result is only returned for a one-part score whose measures are all usable, and it holds as many notes as their first-staff voices together |
| FileReader.CreateVoiceArray | file_reader.cpp:57-95 | the two loop nests return exactly the result of VoiceArray: the part error, the first measure error, or the notes of every measure in order |
| FileReader.VoiceArrayErrors | file_reader.cpp:58-78 | "More than one part in source!" exactly when the part count is not 1 (zero included); otherwise success exactly when every measure is usable, and an error is that of the first unusable measure |
| FileReader.JoinMeasureNotes | file_reader.cpp:85-92 | appending the stored measure vectors note by note gives the notes of every measure in order |
| FileReader.CondenseAppend | file_reader.cpp:85-92 | the voice of consecutive runs of measures is their voices concatenated |
| FileReader.CondenseLength | file_reader.cpp:85-92 | the voice holds as many notes as the measures' first-staff voices together |
| FileReader.CondenseMeasure | file_reader.cpp:80-92 | each measure's notes appear whole in the voice, right after those of the measures before it |
| FileReader.OnlyFirstStaffRead | file_reader.cpp:71-75 | two one-part scores whose measures agree on their first staff give the same result: the other staves are never read |

## Left out

- Reading the file and building the score object (`read_file`, `get_score_object`): file-system I/O and the library's document manager.
- `main`'s driver, `voice_array_to_part`, `extend_part_length`, `create_output_score` and `write_file`: I/O and library layout of measures, barlines and clefs. Of `main`, only the per-tick expansion loop is modelled.
- `print_messages` and the "More than one staff found" notice in `create_voice_array`: console output.
- The "similar motion from a 2nd to a 3rd" warning (counterpoint_checker.cpp:136-140): `get_movement_type` is not defined anywhere, and the two-argument `send_warning_message` call does not match the three-parameter definition.
- `is_dissonant` and `get_motion_type` are declared in sonority.h but never defined, and they are not modelled. `is_consonant` is called by the downbeat scan but declared nowhere; it is a function parameter of the scan.
- CounterpointChecker.CheckVoiceIndependence: the scan calls `get_note_1_movement()` and `get_note_2_movement()` (counterpoint_checker.cpp:72 and 123), which sonority.h does not declare. They are modelled as sonority.h's `get_note_1_motion()` and `get_note_2_motion()`, and their `.second` as the semitone component of that motion.
- The older `Sonority` class in canon_generator.cpp:296-339, superseded by sonority.h.
- Source integers are 32-bit `int` and 64-bit `size_t`. The model uses unbounded integers, except for the size_t comparison that bounds the downbeat search.
- The sonority arrays are taken as given: the code that builds them and calls `build_motion_data` is not part of the source.
- MxApi.DefaultNote: the library's default pitch and duration values are not available. The model uses C4 with an unspecified duration, which the core never reads.
- CanonGenerator.SplitNote: the source recursion is unbounded. The model bounds it by fuel, and `RecursionLimit` covers both running out of fuel and the case of a first half whose largest fitting key is itself. That case would recurse forever on identical arguments, and it can only happen when a tick is not one 32nd note.
- CanonGenerator.SplitNoteWith: requires 1 <= f < the note's length. A first half below 1 tick, or a second half of 0 ticks or fewer, makes the source call `get_last_key_before` on a value below 1.
- CanonGenerator.TicksToDurationData: requires ticks per measure > 0 and a beat type > 0, because the source divides by both (canon_generator.cpp:38). The beat count is not restricted. The split functions and the shift's rest prefix carry the same two conditions.
- CanonGenerator.Shift: requires ticks per measure > 0 and a beat type > 0 only when h is not 0. Without a horizontal shift the source reads neither value.
- CanonGenerator.Shift: requires h >= 0. The source accepts a negative horizontal shift, computes negative tick positions and then calls `get_last_key_before` on a value below 1.
- CanonGenerator.LastKeyBefore: requires t >= 1, because below 1 the source reads past the end of its key list.
- CanonGenerator.AltersByKey: requires fifths <= 6, because the seventh sharp writes index -1.
- CounterpointChecker.CheckVoiceIndependence: requires at least one sonority, because on an empty array `size() - 1` wraps around.
- CanonGenerator.LeadingRests: only the last rest piece is stated to fit within a measure. The earlier pieces need not: 132 ticks with 32 to the measure give pieces of 32, 96 and 4.
- Sonorities.GetInterval: the semitone component is reconstructed, since only the declaration exists. The chromatic distance is the model's choice.
- Sonorities.Sonority: the intervals are assigned by the constructor instead of member initialisers. Lemmas that take a sonority as a parameter state the initialisers again through `Valid()`.
- CounterpointChecker.Message: the description string is a datatype `Description`, with its wording given by `DescriptionText`. Messages are compared by id pair only, as in the source.
- CounterpointChecker.CheckCounterpoint: the warning box is never written by the modelled scan, so the warnings returned are always empty.
- CounterpointChecker.CheckVoiceIndependence: the scan over sonority objects is specified through value snapshots (`SonorityView`) of the fields it reads. The C++ container of voices is a sequence indexed from 0.

## Findings

| source | as written | input that shows it | evidently intended | confidence | as-written member | corrected member |
|---|---|---|---|---|---|---|
| canon_generator.cpp:133-137 | when the second half is not a table duration, the failed element stays in the result, and the note split again is that element, which still carries the whole original duration | a 10-tick note split after 1 tick with 32 ticks to a 4/4 measure gives four fragments lasting 21 ticks; a 9-tick note split after 4 ticks never returns | the second half, cut to its remaining ticks, is split again and replaced by its pieces, so the fragments last exactly as long as the note | not executed; follows from the proved lemmas | CanonGenerator.SplitNoteAsWrittenOverfills | CanonGenerator.SplitNoteSound |
| canon_generator.cpp:176-195 | shift splits its leading rest with split_note as written, so the rest prefix inherits the defect above | with 32 ticks to a 4/4 measure, a horizontal shift of 21 ticks never returns, and one of 112 ticks puts 256 ticks of rest in front of the voice | the rest prefix lasts exactly the horizontal shift | not executed; follows from the proved lemmas | CanonGenerator.LeadingRestsAsWrittenDiverges | CanonGenerator.LeadingRestsCorrect |
