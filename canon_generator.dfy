/** The pitch, duration and shift engine of canon_generator.cpp: key-signature
    alterations, the tick-to-named-duration table, tie-splitting of notes that no
    single named duration can hold, the diatonic and horizontal shift of a voice,
    and the per-tick expansion of voices. */
module CanonGenerator {
  import opened Wrappers
  import opened CppInt
  import opened MxApi

  /** A condensed voice: the notes of a part in order, measures run together. */
  type NoteSeq = seq<Note>

  // ---------------------------------------------------------------------------
  // Key signature (alters_by_key)
  // ---------------------------------------------------------------------------

  /** The cell alters_by_key increments for the i-th sharp. */
  function SharpCell(i: nat): int {
    ((i + 1) * 4) % 7 - 1
  }

  /** The cell alters_by_key decrements for the i-th flat. */
  function FlatCell(i: nat): int {
    (((i + 1) * 3) + 3) % 7
  }

  /** How many of the first n sharps land on step s. */
  function SharpCount(n: nat, s: int): nat {
    if n == 0 then 0 else SharpCount(n - 1, s) + (if SharpCell(n - 1) == s then 1 else 0)
  }

  /** How many of the first n flats land on step s. */
  function FlatCount(n: nat, s: int): nat {
    if n == 0 then 0 else FlatCount(n - 1, s) + (if FlatCell(n - 1) == s then 1 else 0)
  }

  /** The alteration the key signature with `fifths` sharps (negative: flats) puts on step s. */
  function KeyAlter(fifths: int, s: int): int {
    if fifths > 0 then SharpCount(fifths, s) else -(FlatCount(-fifths, s) as int)
  }

  /** The seven alterations, indexed by step. */
  function KeyAlters(fifths: int): (r: seq<int>)
    ensures |r| == 7
  {
    seq(7, s => KeyAlter(fifths, s))
  }

  /** Order of sharps F, C, G, D, A, E, B and of flats B, E, A, D, G, C, F, as steps. */
  const SharpOrder: seq<Step> := [3, 0, 4, 1, 5, 2, 6]
  const FlatOrder: seq<Step> := [6, 2, 5, 1, 4, 0, 3]

  method AltersByKey(fifths: int) returns (alters: seq<int>)
    requires fifths <= 6 // the seventh sharp would write index -1
    ensures alters == KeyAlters(fifths)
  {
    var a := new int[7](_ => 0);
    if fifths < 0 {
      for i := 0 to -fifths
        invariant forall s :: 0 <= s < 7 ==> a[s] == -(FlatCount(i, s) as int)
      {
        a[FlatCell(i)] := a[FlatCell(i)] - 1;
      }
    } else if fifths > 0 {
      for i := 0 to fifths
        invariant forall s :: 0 <= s < 7 ==> a[s] == SharpCount(i, s)
      {
        a[SharpCell(i)] := a[SharpCell(i)] + 1;
      }
    }
    alters := a[..];
    assert forall s :: 0 <= s < 7 ==> alters[s] == KeyAlters(fifths)[s];
  }

  lemma KeyAltersNatural()
    ensures KeyAlters(0) == [0, 0, 0, 0, 0, 0, 0]
  {
    assert forall s :: 0 <= s < 7 ==> KeyAlters(0)[s] == 0;
  }

  /** Where step s stands in the order of sharps F, C, G, D, A, E, B. */
  function SharpPosition(s: Step): (i: nat)
    ensures i < 7 && SharpOrder[i] == s
  {
    if s == 3 then 0 else if s == 0 then 1 else if s == 4 then 2 else if s == 1 then 3
    else if s == 5 then 4 else if s == 2 then 5 else 6
  }

  /** Where step s stands in the order of flats B, E, A, D, G, C, F. */
  function FlatPosition(s: Step): (i: nat)
    ensures i < 7 && FlatOrder[i] == s
  {
    if s == 6 then 0 else if s == 2 then 1 else if s == 5 then 2 else if s == 1 then 3
    else if s == 4 then 4 else if s == 0 then 5 else 6
  }

  /** The i-th sharp (i < 6) lands on the i-th step of the order of sharps. */
  lemma SharpCellPosition(i: nat, s: Step)
    requires i < 6
    ensures SharpCell(i) == s <==> SharpPosition(s) == i
  {
    assert i == 0 || i == 1 || i == 2 || i == 3 || i == 4 || i == 5;
  }

  /** The i-th flat lands on the i-th step of the order of flats. */
  lemma FlatCellPosition(i: nat, s: Step)
    requires i < 7
    ensures FlatCell(i) == s <==> FlatPosition(s) == i
  {
    assert i == 0 || i == 1 || i == 2 || i == 3 || i == 4 || i == 5 || i == 6;
  }

  lemma {:induction false} SharpCountFirst(n: nat, s: Step)
    requires n <= 6
    ensures SharpCount(n, s) == if SharpPosition(s) < n then 1 else 0
  {
    if n > 0 {
      SharpCountFirst(n - 1, s);
      SharpCellPosition(n - 1, s);
    }
  }

  lemma {:induction false} FlatCountFirst(n: nat, s: Step)
    requires n <= 7
    ensures FlatCount(n, s) == if FlatPosition(s) < n then 1 else 0
  {
    if n > 0 {
      FlatCountFirst(n - 1, s);
      FlatCellPosition(n - 1, s);
    }
  }

  /** With 1 to 6 sharps, the first `fifths` steps of F, C, G, D, A, E are raised. */
  lemma KeyAltersSharps(fifths: int, s: Step)
    requires 1 <= fifths <= 6
    ensures KeyAlters(fifths)[s] == if SharpPosition(s) < fifths then 1 else 0
  {
    SharpCountFirst(fifths, s);
  }

  /** With 1 to 7 flats, the first -fifths steps of B, E, A, D, G, C, F are lowered. */
  lemma KeyAltersFlats(fifths: int, s: Step)
    requires -7 <= fifths <= -1
    ensures KeyAlters(fifths)[s] == if FlatPosition(s) < -fifths then -1 else 0
  {
    FlatCountFirst(-fifths, s);
  }

  // ---------------------------------------------------------------------------
  // Durations (ticks_to_duration_data, get_last_key_before)
  // ---------------------------------------------------------------------------

  /** Named durations keyed by their length in 32nd notes, with their dot count. */
  const DurationTable: map<int, (DurationName, int)> := map[
    1 := (Dur32nd, 0), 2 := (Dur16th, 0), 3 := (Dur16th, 1),
    4 := (Eighth, 0), 6 := (Eighth, 1), 7 := (Eighth, 2),
    8 := (Quarter, 0), 12 := (Quarter, 1), 14 := (Quarter, 2),
    16 := (Half, 0), 24 := (Half, 1), 28 := (Half, 2),
    32 := (Whole, 0), 48 := (Whole, 1), 56 := (Whole, 2),
    64 := (Breve, 0), 96 := (Breve, 1), 112 := (Breve, 2)]

  /** The keys of the table in ascending order, as get_last_key_before lists them. */
  const DurationKeys: seq<int> := [1, 2, 3, 4, 6, 7, 8, 12, 14, 16, 24, 28, 32, 48, 56, 64, 96, 112]

  /** Length of an undotted duration in 32nd notes. */
  function PlainLength(name: DurationName): nat {
    match name
    case Unspecified => 0
    case Breve => 64
    case Whole => 32
    case Half => 16
    case Quarter => 8
    case Eighth => 4
    case Dur16th => 2
    case Dur32nd => 1
  }

  /** Length in 32nd notes of a duration of `base` 32nds with `dots` dots: each dot adds half
      of what the previous one added. */
  function DottedLength(base: nat, dots: nat): nat {
    if dots == 0 then base else base + DottedLength(base / 2, dots - 1)
  }

  /** 32nd notes in one tick, by C++ integer division: 32 * beats / ticks_per_measure / beat_type. */
  function Dur32ndPerTick(ticksPerMeasure: int, ts: TimeSignature): int
    requires ticksPerMeasure > 0 && ts.beatType > 0
  {
    Quot(Quot(32 * ts.beats, ticksPerMeasure), ts.beatType)
  }

  lemma TableLengths()
    ensures forall k :: k in DurationTable ==>
      DurationTable[k].0 != Unspecified && 0 <= DurationTable[k].1 <= 2 &&
      DottedLength(PlainLength(DurationTable[k].0), DurationTable[k].1) == k
  {
  }

  function TicksToDurationData(ticks: int, ticksPerMeasure: int, ts: TimeSignature): (r: Result<Duration>)
    requires ticksPerMeasure > 0 && ts.beatType > 0
    ensures r.Ok? <==> ticks * Dur32ndPerTick(ticksPerMeasure, ts) in DurationTable
    ensures r.Err? ==> r.error == InvalidDuration
    ensures r.Ok? ==> r.value.timeTicks == ticks && r.value.name != Unspecified && 0 <= r.value.dots <= 2
  {
    TableLengths();
    var inNote := ticks * Dur32ndPerTick(ticksPerMeasure, ts);
    if inNote in DurationTable then
      Ok(Duration(DurationTable[inNote].0, DurationTable[inNote].1, ticks))
    else
      Err(InvalidDuration)
  }

  /** A successful lookup names the table entry for the note's length in 32nd notes, and
      that name with its dots lasts exactly that long. */
  lemma TicksToDurationDataLength(ticks: int, ticksPerMeasure: int, ts: TimeSignature)
    requires ticksPerMeasure > 0 && ts.beatType > 0
    requires TicksToDurationData(ticks, ticksPerMeasure, ts).Ok?
    ensures var d := TicksToDurationData(ticks, ticksPerMeasure, ts).value;
      var inNote := ticks * Dur32ndPerTick(ticksPerMeasure, ts);
      (d.name, d.dots) == DurationTable[inNote] && DottedLength(PlainLength(d.name), d.dots) == inNote
  {
    TableLengths();
  }

  /** The last of the ascending `keys` that is at most t. */
  function LastAtMost(keys: seq<int>, t: int): (k: int)
    requires |keys| > 0 && keys[0] <= t
    requires forall i, j :: 0 <= i < j < |keys| ==> keys[i] < keys[j]
    ensures k in keys && k <= t
    ensures forall i :: 0 <= i < |keys| && keys[i] <= t ==> keys[i] <= k
  {
    if keys[|keys| - 1] <= t then keys[|keys| - 1] else LastAtMost(keys[..|keys| - 1], t)
  }

  lemma DurationKeysAreTableKeys()
    ensures forall i, j :: 0 <= i < j < |DurationKeys| ==> DurationKeys[i] < DurationKeys[j]
    ensures forall k :: k in DurationKeys <==> k in DurationTable
  {
  }

  /** get_last_key_before(t): the last entry of the source's ascending key list that is at
      most t; below 1 the source reads past the end of its list. */
  function LastKeyBefore(t: int): (k: int)
    requires t >= 1
    ensures k in DurationTable && 1 <= k <= t
  {
    DurationKeysAreTableKeys();
    LastAtMost(DurationKeys, t)
  }

  /** A table key that is at most t, found by counting down from t; LastKeyAtMostLargest
      shows it is the largest one. */
  function LastKeyAtMost(t: int): (k: int)
    requires t >= 1
    ensures k in DurationTable && 1 <= k <= t
  {
    if t in DurationTable then t else LastKeyAtMost(t - 1)
  }

  lemma {:induction false} LastKeyAtMostLargest(t: int, key: int)
    requires t >= 1 && key in DurationTable && key <= t
    ensures key <= LastKeyAtMost(t)
  {
    if t !in DurationTable {
      LastKeyAtMostLargest(t - 1, key);
    }
  }

  /** The key-list scan and the downward search agree. */
  lemma LastKeyBeforeIsLastKeyAtMost(t: int)
    requires t >= 1
    ensures LastKeyBefore(t) == LastKeyAtMost(t)
  {
    DurationKeysAreTableKeys();
    var k := LastKeyBefore(t);
    assert forall i :: 0 <= i < |DurationKeys| && DurationKeys[i] <= t ==> DurationKeys[i] <= k;
    LastKeyAtMostLargest(t, k);
  }

  lemma LastKeyAtMostExact(t: int)
    requires t in DurationTable
    ensures LastKeyAtMost(t) == t
  {
  }

  lemma LastKeyAtMostAbove(t: int)
    requires t >= 112
    ensures LastKeyAtMost(t) == 112
  {
    LastKeyAtMostLargest(t, 112);
  }

  // ---------------------------------------------------------------------------
  // Tie-splitting (split_note)
  // ---------------------------------------------------------------------------

  /** What split_note and shift's horizontal part need of the meter: they divide by
      ticks_per_measure and by the beat type. The beat count may be anything; when it gives
      no positive number of 32nd notes per tick, no length is a table entry. */
  predicate ValidMeter(ticksPerMeasure: int, ts: TimeSignature) {
    ticksPerMeasure > 0 && ts.beatType > 0
  }

  /** A tick count that ticks_to_duration_data accepts. */
  predicate Representable(ticks: int, ticksPerMeasure: int, ts: TimeSignature)
    requires ValidMeter(ticksPerMeasure, ts)
  {
    TicksToDurationData(ticks, ticksPerMeasure, ts).Ok?
  }

  function Ticks(n: Note): int {
    n.duration.timeTicks
  }

  function WithTicks(n: Note, ticks: int): (r: Note)
    ensures Ticks(r) == ticks
  {
    n.(duration := n.duration.(timeTicks := ticks))
  }

  /** Sum of the durations of a run of notes. */
  function TotalTicks(notes: seq<Note>): int {
    if notes == [] then 0 else Ticks(notes[0]) + TotalTicks(notes[1..])
  }

  lemma {:induction false} TotalTicksAppend(a: seq<Note>, b: seq<Note>)
    ensures TotalTicks(a + b) == TotalTicks(a) + TotalTicks(b)
  {
    if a != [] {
      assert (a + b)[1..] == a[1..] + b;
      TotalTicksAppend(a[1..], b);
    } else {
      assert a + b == b;
    }
  }

  function MarkTieStart(notes: seq<Note>): (r: seq<Note>)
    ensures |r| == |notes|
    ensures forall k :: 0 <= k < |r| ==> r[k] == notes[k].(isTieStart := true)
  {
    seq(|notes|, k requires 0 <= k < |notes| => notes[k].(isTieStart := true))
  }

  /** The second part of a split before its duration is looked up: a copy of the original
      note, tie-stopped, starting where the previous fragment ends. */
  function SecondPart(n: Note, previous: Note, ticksPerMeasure: int): (r: Note)
    requires ticksPerMeasure > 0
    ensures r == n.(isTieStop := true, tickTimePosition := r.tickTimePosition)
    ensures -ticksPerMeasure < r.tickTimePosition < ticksPerMeasure
    ensures previous.tickTimePosition + Ticks(previous) >= 0 ==>
      r.tickTimePosition == (previous.tickTimePosition + Ticks(previous)) % ticksPerMeasure
  {
    n.(isTieStop := true,
       tickTimePosition := Rem(previous.tickTimePosition + Ticks(previous), ticksPerMeasure))
  }

  /** split_note(n, f): the note cut after f ticks, each half looked up in the duration
      table and, when the lookup fails, split again at the largest table key that fits.
      `corrected` selects the second-half failure branch: false is the branch as written
      (it re-splits a copy that still carries the whole duration and keeps that copy in the
      result), true re-splits the second half itself. The recursion is bounded by `fuel`;
      RecursionLimit stands for a source recursion that does not come back. The first part
      of a split calls itself with identical arguments forever when the largest key that
      fits is the whole length and that length is not representable, which can only happen
      when a tick is not one 32nd note; the model reports that at once. */
  function SplitNoteWith(corrected: bool, n: Note, firstHalfTicks: int, ticksPerMeasure: int,
                         ts: TimeSignature, fuel: nat): (r: Result<seq<Note>>)
    requires ValidMeter(ticksPerMeasure, ts)
    requires 1 <= firstHalfTicks < Ticks(n)
    ensures r.Ok? ==> |r.value| >= 2
    ensures r.Err? ==> r.error == RecursionLimit
    decreases fuel, 1
  {
    if fuel == 0 then Err(RecursionLimit)
    else
      match FirstPart(corrected, n, firstHalfTicks, ticksPerMeasure, ts, fuel)
      case Err(e) => Err(e)
      case Ok(first) =>
        // The copy for the second part keeps the original's tie-start.
        var second := SecondPart(n, first[|first| - 1], ticksPerMeasure);
        match RestPart(corrected, second, Ticks(n) - firstHalfTicks, ticksPerMeasure, ts, fuel)
        case Err(e) => Err(e)
        case Ok(tail) => Ok(first + tail)
  }

  /** The fragments split_note's first block leaves: the note with f ticks' duration, or,
      when f ticks are not representable, a copy cut to f ticks split again at the largest
      key that fits, every fragment marked tie-start. */
  function FirstPart(corrected: bool, n: Note, f: int, ticksPerMeasure: int,
                     ts: TimeSignature, fuel: nat): (r: Result<seq<Note>>)
    requires ValidMeter(ticksPerMeasure, ts) && 1 <= f && fuel >= 1
    ensures r.Ok? ==> |r.value| >= 1
    ensures r.Err? ==> r.error == RecursionLimit
    decreases fuel, 0
  {
    match TicksToDurationData(f, ticksPerMeasure, ts)
    case Ok(d) => Ok([n.(duration := d, isTieStart := true)])
    case Err(_) =>
      var key := LastKeyAtMost(f);
      if key == f then Err(RecursionLimit)
      else
        var pieces :- SplitNoteWith(corrected, WithTicks(n, f), key, ticksPerMeasure, ts, fuel - 1);
        Ok(MarkTieStart(pieces))
  }

  /** The fragments split_note's second block appends for the remaining `rest` ticks, given
      the tie-stopped copy `second` of the original note. */
  function RestPart(corrected: bool, second: Note, rest: int, ticksPerMeasure: int,
                    ts: TimeSignature, fuel: nat): (r: Result<seq<Note>>)
    requires ValidMeter(ticksPerMeasure, ts) && 1 <= rest < Ticks(second) && fuel >= 1
    ensures r.Ok? ==> |r.value| >= 1
    ensures r.Err? ==> r.error == RecursionLimit
    decreases fuel, 0
  {
    match TicksToDurationData(rest, ticksPerMeasure, ts)
    case Ok(d) => Ok([second.(duration := d)])
    case Err(_) =>
      var key := LastKeyAtMost(rest);
      if !corrected then
        var pieces :- SplitNoteWith(corrected, second, key, ticksPerMeasure, ts, fuel - 1);
        Ok([second] + pieces)
      else if key == rest then Err(RecursionLimit)
      else
        var pieces :- SplitNoteWith(corrected, WithTicks(second, rest), key, ticksPerMeasure, ts, fuel - 1);
        Ok(pieces)
  }

  /** split_note as the source writes it. */
  function SplitNoteAsWritten(n: Note, firstHalfTicks: int, ticksPerMeasure: int,
                              ts: TimeSignature, fuel: nat): (r: Result<seq<Note>>)
    requires ValidMeter(ticksPerMeasure, ts)
    requires 1 <= firstHalfTicks < Ticks(n)
    ensures r.Ok? ==> |r.value| >= 2
    ensures r.Err? ==> r.error == RecursionLimit
  {
    SplitNoteWith(false, n, firstHalfTicks, ticksPerMeasure, ts, fuel)
  }

  /** split_note with the second-half failure branch corrected; the rest of the model uses this. */
  function SplitNote(n: Note, firstHalfTicks: int, ticksPerMeasure: int,
                     ts: TimeSignature, fuel: nat): (r: Result<seq<Note>>)
    requires ValidMeter(ticksPerMeasure, ts)
    requires 1 <= firstHalfTicks < Ticks(n)
    ensures r.Ok? ==> |r.value| >= 2
    ensures r.Err? ==> r.error == RecursionLimit
  {
    SplitNoteWith(true, n, firstHalfTicks, ticksPerMeasure, ts, fuel)
  }

  /** Fragments of one note: same pitch and rest flag, every duration a table entry. */
  predicate SameSound(frags: seq<Note>, n: Note, ticksPerMeasure: int, ts: TimeSignature)
    requires ValidMeter(ticksPerMeasure, ts)
  {
    forall k :: 0 <= k < |frags| ==>
      frags[k].pitch == n.pitch && frags[k].isRest == n.isRest && Ticks(frags[k]) >= 1 &&
      TicksToDurationData(Ticks(frags[k]), ticksPerMeasure, ts) == Ok(frags[k].duration)
  }

  /** Consecutive fragments are tied, and each starts where the previous one ends. */
  predicate Chained(frags: seq<Note>, ticksPerMeasure: int)
    requires ticksPerMeasure > 0
  {
    (forall k :: 0 <= k < |frags| - 1 ==> frags[k].isTieStart) &&
    (forall k :: 0 < k < |frags| ==>
       frags[k].isTieStop &&
       frags[k].tickTimePosition == Rem(frags[k - 1].tickTimePosition + Ticks(frags[k - 1]), ticksPerMeasure))
  }

  /** A complete decomposition of n: tied fragments that together last exactly as long as n,
      the first keeping n's tie-stop and position, the last keeping n's tie-start. */
  predicate TiedFragments(frags: seq<Note>, n: Note, ticksPerMeasure: int, ts: TimeSignature)
    requires ValidMeter(ticksPerMeasure, ts)
  {
    |frags| >= 2 &&
    SameSound(frags, n, ticksPerMeasure, ts) &&
    Chained(frags, ticksPerMeasure) &&
    frags[0].isTieStop == n.isTieStop && frags[0].tickTimePosition == n.tickTimePosition &&
    frags[|frags| - 1].isTieStart == n.isTieStart &&
    TotalTicks(frags) == Ticks(n)
  }

  lemma ChainedAppend(a: seq<Note>, b: seq<Note>, ticksPerMeasure: int)
    requires ticksPerMeasure > 0
    requires a != [] && b != []
    requires Chained(a, ticksPerMeasure) && Chained(b, ticksPerMeasure)
    requires a[|a| - 1].isTieStart && b[0].isTieStop
    requires b[0].tickTimePosition == Rem(a[|a| - 1].tickTimePosition + Ticks(a[|a| - 1]), ticksPerMeasure)
    ensures Chained(a + b, ticksPerMeasure)
  {
    var c := a + b;
    forall k | 0 <= k < |c| - 1
      ensures c[k].isTieStart
    {
      if k >= |a| {
        assert c[k] == b[k - |a|];
      } else {
        assert c[k] == a[k];
      }
    }
    forall k | 0 < k < |c|
      ensures c[k].isTieStop &&
        c[k].tickTimePosition == Rem(c[k - 1].tickTimePosition + Ticks(c[k - 1]), ticksPerMeasure)
    {
      if k > |a| {
        assert c[k] == b[k - |a|] && c[k - 1] == b[k - 1 - |a|];
      } else if k == |a| {
        assert c[k] == b[0] && c[k - 1] == a[|a| - 1];
      } else {
        assert c[k] == a[k] && c[k - 1] == a[k - 1];
      }
    }
  }

  /** Both halves representable: exactly two notes, holding f and n's duration minus f ticks. */
  lemma SplitNoteTwoParts(corrected: bool, n: Note, f: int, ticksPerMeasure: int, ts: TimeSignature, fuel: nat)
    requires ValidMeter(ticksPerMeasure, ts) && 1 <= f < Ticks(n) && fuel >= 1
    requires Representable(f, ticksPerMeasure, ts) && Representable(Ticks(n) - f, ticksPerMeasure, ts)
    ensures var r := SplitNoteWith(corrected, n, f, ticksPerMeasure, ts, fuel);
      r.Ok? && |r.value| == 2 &&
      Ticks(r.value[0]) == f && Ticks(r.value[1]) == Ticks(n) - f &&
      r.value[0] == n.(duration := r.value[0].duration, isTieStart := true) &&
      r.value[1] == n.(duration := r.value[1].duration, isTieStop := true,
                       tickTimePosition := Rem(n.tickTimePosition + f, ticksPerMeasure))
  {
  }

  lemma {:induction false} TotalTicksMarked(notes: seq<Note>)
    ensures TotalTicks(MarkTieStart(notes)) == TotalTicks(notes)
  {
    if notes != [] {
      assert MarkTieStart(notes)[1..] == MarkTieStart(notes[1..]);
      TotalTicksMarked(notes[1..]);
    }
  }

  lemma TotalTicksSingle(x: Note)
    ensures TotalTicks([x]) == Ticks(x)
  {
    assert [x][1..] == [];
  }

  /** What the first part of a corrected split guarantees when it succeeds. */
  predicate FirstPartFacts(first: seq<Note>, n: Note, f: int, ticksPerMeasure: int, ts: TimeSignature)
    requires ValidMeter(ticksPerMeasure, ts)
  {
    first != [] && SameSound(first, n, ticksPerMeasure, ts) && Chained(first, ticksPerMeasure) &&
    first[|first| - 1].isTieStart &&
    first[0].isTieStop == n.isTieStop && first[0].tickTimePosition == n.tickTimePosition &&
    TotalTicks(first) == f
  }

  /** What the rest part of a corrected split guarantees when it succeeds. */
  predicate RestPartFacts(tail: seq<Note>, second: Note, rest: int, ticksPerMeasure: int, ts: TimeSignature)
    requires ValidMeter(ticksPerMeasure, ts)
  {
    tail != [] && SameSound(tail, second, ticksPerMeasure, ts) && Chained(tail, ticksPerMeasure) &&
    tail[0].isTieStop == second.isTieStop && tail[0].tickTimePosition == second.tickTimePosition &&
    tail[|tail| - 1].isTieStart == second.isTieStart &&
    TotalTicks(tail) == rest
  }

  /** The corrected split is a complete decomposition whenever it succeeds. */
  lemma {:induction false} SplitNoteSound(n: Note, f: int, ticksPerMeasure: int, ts: TimeSignature, fuel: nat)
    requires ValidMeter(ticksPerMeasure, ts) && 1 <= f < Ticks(n)
    ensures var r := SplitNote(n, f, ticksPerMeasure, ts, fuel);
      r.Ok? ==> TiedFragments(r.value, n, ticksPerMeasure, ts)
    decreases fuel, 2
  {
    var r := SplitNote(n, f, ticksPerMeasure, ts, fuel);
    if r.Ok? {
      SplitNoteWithParts(true, n, f, ticksPerMeasure, ts, fuel);
      var first := FirstPart(true, n, f, ticksPerMeasure, ts, fuel).value;
      var tail := RestPart(true, SecondPart(n, first[|first| - 1], ticksPerMeasure), Ticks(n) - f,
                           ticksPerMeasure, ts, fuel).value;
      PartsSound(n, f, ticksPerMeasure, ts, fuel, first, tail);
    }
  }

  /** A successful first part followed by a successful rest part is a complete decomposition. */
  lemma {:induction false} PartsSound(n: Note, f: int, ticksPerMeasure: int, ts: TimeSignature, fuel: nat,
                                      first: seq<Note>, tail: seq<Note>)
    requires ValidMeter(ticksPerMeasure, ts) && 1 <= f < Ticks(n) && fuel >= 1
    requires FirstPart(true, n, f, ticksPerMeasure, ts, fuel) == Ok(first)
    requires RestPart(true, SecondPart(n, first[|first| - 1], ticksPerMeasure), Ticks(n) - f,
                      ticksPerMeasure, ts, fuel) == Ok(tail)
    ensures TiedFragments(first + tail, n, ticksPerMeasure, ts)
    decreases fuel, 1
  {
    var second := SecondPart(n, first[|first| - 1], ticksPerMeasure);
    FirstPartSound(n, f, ticksPerMeasure, ts, fuel);
    RestPartSound(second, Ticks(n) - f, ticksPerMeasure, ts, fuel);
    JoinParts(first, tail, n, f, ticksPerMeasure, ts);
  }

  /** A successful split is a successful first part followed by a successful rest part. */
  lemma SplitNoteWithParts(corrected: bool, n: Note, f: int, ticksPerMeasure: int, ts: TimeSignature, fuel: nat)
    requires ValidMeter(ticksPerMeasure, ts) && 1 <= f < Ticks(n)
    requires SplitNoteWith(corrected, n, f, ticksPerMeasure, ts, fuel).Ok?
    ensures fuel >= 1
    ensures var first := FirstPart(corrected, n, f, ticksPerMeasure, ts, fuel);
      first.Ok? &&
      var tail := RestPart(corrected, SecondPart(n, first.value[|first.value| - 1], ticksPerMeasure),
                           Ticks(n) - f, ticksPerMeasure, ts, fuel);
      tail.Ok? && SplitNoteWith(corrected, n, f, ticksPerMeasure, ts, fuel).value == first.value + tail.value
  {
    var r := SplitNoteWith(corrected, n, f, ticksPerMeasure, ts, fuel);
    assert fuel >= 1;
    var first := FirstPart(corrected, n, f, ticksPerMeasure, ts, fuel);
    assert first.Ok?;
    var second := SecondPart(n, first.value[|first.value| - 1], ticksPerMeasure);
    var tail := RestPart(corrected, second, Ticks(n) - f, ticksPerMeasure, ts, fuel);
    assert tail.Ok? && r.value == first.value + tail.value;
  }

  /** The first part followed by the rest part is a complete decomposition of n. */
  lemma JoinParts(first: seq<Note>, tail: seq<Note>, n: Note, f: int, ticksPerMeasure: int, ts: TimeSignature)
    requires ValidMeter(ticksPerMeasure, ts) && 1 <= f < Ticks(n)
    requires FirstPartFacts(first, n, f, ticksPerMeasure, ts)
    requires RestPartFacts(tail, SecondPart(n, first[|first| - 1], ticksPerMeasure), Ticks(n) - f, ticksPerMeasure, ts)
    ensures TiedFragments(first + tail, n, ticksPerMeasure, ts)
  {
    SameSoundAppend(first, tail, n, ticksPerMeasure, ts);
    ChainedAppend(first, tail, ticksPerMeasure);
    TotalTicksAppend(first, tail);
  }

  lemma SameSoundAppend(a: seq<Note>, b: seq<Note>, n: Note, ticksPerMeasure: int, ts: TimeSignature)
    requires ValidMeter(ticksPerMeasure, ts)
    requires SameSound(a, n, ticksPerMeasure, ts)
    requires forall k :: 0 <= k < |b| ==>
      b[k].pitch == n.pitch && b[k].isRest == n.isRest && Ticks(b[k]) >= 1 &&
      TicksToDurationData(Ticks(b[k]), ticksPerMeasure, ts) == Ok(b[k].duration)
    ensures SameSound(a + b, n, ticksPerMeasure, ts)
  {
    var c := a + b;
    forall k | 0 <= k < |c|
      ensures c[k].pitch == n.pitch && c[k].isRest == n.isRest && Ticks(c[k]) >= 1 &&
        TicksToDurationData(Ticks(c[k]), ticksPerMeasure, ts) == Ok(c[k].duration)
    {
      if k >= |a| {
        assert c[k] == b[k - |a|];
      }
    }
  }

  lemma {:induction false} FirstPartSound(n: Note, f: int, ticksPerMeasure: int, ts: TimeSignature, fuel: nat)
    requires ValidMeter(ticksPerMeasure, ts) && 1 <= f && fuel >= 1
    ensures var r := FirstPart(true, n, f, ticksPerMeasure, ts, fuel);
      r.Ok? ==> FirstPartFacts(r.value, n, f, ticksPerMeasure, ts)
    decreases fuel, 0
  {
    var r := FirstPart(true, n, f, ticksPerMeasure, ts, fuel);
    if r.Ok? {
      if Representable(f, ticksPerMeasure, ts) {
        SingleFragment(n.(duration := TicksToDurationData(f, ticksPerMeasure, ts).value, isTieStart := true),
                       n, f, ticksPerMeasure, ts);
      } else {
        var key := LastKeyAtMost(f);
        var pieces := SplitNote(WithTicks(n, f), key, ticksPerMeasure, ts, fuel - 1).value;
        SplitNoteSound(WithTicks(n, f), key, ticksPerMeasure, ts, fuel - 1);
        MarkedFirstPart(pieces, n, f, ticksPerMeasure, ts);
      }
    }
  }

  /** A single fragment with a looked-up duration of f ticks. */
  lemma SingleFragment(x: Note, n: Note, f: int, ticksPerMeasure: int, ts: TimeSignature)
    requires ValidMeter(ticksPerMeasure, ts) && 1 <= f && Representable(f, ticksPerMeasure, ts)
    requires x.pitch == n.pitch && x.isRest == n.isRest
    requires x.duration == TicksToDurationData(f, ticksPerMeasure, ts).value
    ensures SameSound([x], n, ticksPerMeasure, ts) && Chained([x], ticksPerMeasure) && TotalTicks([x]) == f
  {
    TotalTicksSingle(x);
  }

  /** The fragments of the first part, marked tie-start, as split_note's first catch block leaves them. */
  lemma MarkedFirstPart(pieces: seq<Note>, n: Note, f: int, ticksPerMeasure: int, ts: TimeSignature)
    requires ValidMeter(ticksPerMeasure, ts) && 1 <= f
    requires TiedFragments(pieces, WithTicks(n, f), ticksPerMeasure, ts)
    ensures FirstPartFacts(MarkTieStart(pieces), n, f, ticksPerMeasure, ts)
  {
    TotalTicksMarked(pieces);
  }

  lemma {:induction false} RestPartSound(second: Note, rest: int, ticksPerMeasure: int, ts: TimeSignature, fuel: nat)
    requires ValidMeter(ticksPerMeasure, ts) && 1 <= rest < Ticks(second) && fuel >= 1
    ensures var r := RestPart(true, second, rest, ticksPerMeasure, ts, fuel);
      r.Ok? ==> RestPartFacts(r.value, second, rest, ticksPerMeasure, ts)
    decreases fuel, 0
  {
    var r := RestPart(true, second, rest, ticksPerMeasure, ts, fuel);
    if r.Ok? {
      if Representable(rest, ticksPerMeasure, ts) {
        SingleFragment(second.(duration := TicksToDurationData(rest, ticksPerMeasure, ts).value),
                       second, rest, ticksPerMeasure, ts);
      } else {
        SplitNoteSound(WithTicks(second, rest), LastKeyAtMost(rest), ticksPerMeasure, ts, fuel - 1);
      }
    }
  }

  lemma TableKeyRepresentable(t: int, ticksPerMeasure: int, ts: TimeSignature)
    requires ValidMeter(ticksPerMeasure, ts) && Dur32ndPerTick(ticksPerMeasure, ts) == 1
    ensures Representable(t, ticksPerMeasure, ts) <==> t in DurationTable
  {
  }

  /** When one tick is one 32nd note, the corrected split always succeeds, given fuel for
      as many levels as the note has ticks. */
  lemma {:induction false} SplitNoteTotal(n: Note, f: int, ticksPerMeasure: int, ts: TimeSignature, fuel: nat)
    requires ValidMeter(ticksPerMeasure, ts) && Dur32ndPerTick(ticksPerMeasure, ts) == 1
    requires 1 <= f < Ticks(n) && fuel >= Ticks(n)
    ensures SplitNote(n, f, ticksPerMeasure, ts, fuel).Ok?
    decreases fuel, 1
  {
    FirstPartTotal(n, f, ticksPerMeasure, ts, fuel);
    var first := FirstPart(true, n, f, ticksPerMeasure, ts, fuel).value;
    var second := SecondPart(n, first[|first| - 1], ticksPerMeasure);
    RestPartTotal(second, Ticks(n) - f, ticksPerMeasure, ts, fuel);
  }

  lemma {:induction false} FirstPartTotal(n: Note, f: int, ticksPerMeasure: int, ts: TimeSignature, fuel: nat)
    requires ValidMeter(ticksPerMeasure, ts) && Dur32ndPerTick(ticksPerMeasure, ts) == 1
    requires 1 <= f && fuel > f
    ensures FirstPart(true, n, f, ticksPerMeasure, ts, fuel).Ok?
    decreases fuel, 0
  {
    TableKeyRepresentable(f, ticksPerMeasure, ts);
    if !Representable(f, ticksPerMeasure, ts) {
      SplitNoteTotal(WithTicks(n, f), LastKeyAtMost(f), ticksPerMeasure, ts, fuel - 1);
    }
  }

  lemma {:induction false} RestPartTotal(second: Note, rest: int, ticksPerMeasure: int, ts: TimeSignature, fuel: nat)
    requires ValidMeter(ticksPerMeasure, ts) && Dur32ndPerTick(ticksPerMeasure, ts) == 1
    requires 1 <= rest < Ticks(second) && fuel > rest
    ensures RestPart(true, second, rest, ticksPerMeasure, ts, fuel).Ok?
    decreases fuel, 0
  {
    TableKeyRepresentable(rest, ticksPerMeasure, ts);
    if !Representable(rest, ticksPerMeasure, ts) {
      SplitNoteTotal(WithTicks(second, rest), LastKeyAtMost(rest), ticksPerMeasure, ts, fuel - 1);
    }
  }

  const FourFour := TimeSignature(4, 4)

  /** As written, splitting a 10-tick note after 1 tick in 4/4 with 32 ticks per measure
      (one tick per 32nd note) yields fragments lasting 21 ticks: the 9-tick second half is
      not a table entry, and the note re-split in its place still lasts 10 ticks and is
      kept in the result. */
  lemma SplitNoteAsWrittenOverfills()
    ensures var r := SplitNoteAsWritten(WithTicks(DefaultNote, 10), 1, 32, FourFour, 2);
      r.Ok? && |r.value| == 4 && TotalTicks(r.value) == 21
  {
    var n := WithTicks(DefaultNote, 10);
    assert Dur32ndPerTick(32, FourFour) == 1;
    var first := FirstPart(false, n, 1, 32, FourFour, 2);
    assert first.Ok? && |first.value| == 1 && Ticks(first.value[0]) == 1;
    var second := SecondPart(n, first.value[0], 32);
    assert Ticks(second) == 10;
    var tail := RestPart(false, second, 9, 32, FourFour, 2);
    OverfillsTail(second);
    var r := SplitNoteAsWritten(n, 1, 32, FourFour, 2);
    assert r.value == first.value + tail.value;
    TotalTicksAppend(first.value, tail.value);
    TotalTicksSingle(first.value[0]);
  }

  /** The second half above: 9 ticks are not a table entry, so the 10-tick copy is split
      at 8 and kept, and the three fragments last 20 ticks. */
  lemma OverfillsTail(second: Note)
    requires Ticks(second) == 10
    ensures var tail := RestPart(false, second, 9, 32, FourFour, 2);
      tail.Ok? && |tail.value| == 3 && TotalTicks(tail.value) == 20
  {
    assert Dur32ndPerTick(32, FourFour) == 1;
    assert !Representable(9, 32, FourFour);
    assert LastKeyAtMost(9) == 8;
    var pieces := SplitNoteWith(false, second, 8, 32, FourFour, 1);
    OverfillsPieces(second);
    var tail := RestPart(false, second, 9, 32, FourFour, 2);
    assert tail == Ok([second] + pieces.value);
    TotalTicksAppend([second], pieces.value);
    TotalTicksSingle(second);
  }

  /** A 10-tick note split at 8 in 4/4 with 32 ticks per measure: two table entries, 8 and 2. */
  lemma OverfillsPieces(m: Note)
    requires Ticks(m) == 10
    ensures var pieces := SplitNoteWith(false, m, 8, 32, FourFour, 1);
      pieces.Ok? && |pieces.value| == 2 && TotalTicks(pieces.value) == 10
  {
    assert Dur32ndPerTick(32, FourFour) == 1;
    assert Representable(8, 32, FourFour) && Representable(2, 32, FourFour);
    SplitNoteTwoParts(false, m, 8, 32, FourFour, 1);
    var pieces := SplitNoteWith(false, m, 8, 32, FourFour, 1).value;
    assert pieces == [pieces[0]] + [pieces[1]];
    TotalTicksAppend([pieces[0]], [pieces[1]]);
    TotalTicksSingle(pieces[0]);
    TotalTicksSingle(pieces[1]);
  }

  /** As written, splitting a 9-tick note after 4 ticks in the same meter never returns: the
      5-tick rest is cut at 4 from a copy that still lasts 9 ticks, which repeats the split. */
  lemma {:induction false} SplitNoteAsWrittenDiverges(n: Note, fuel: nat)
    requires Ticks(n) == 9
    ensures SplitNoteAsWritten(n, 4, 32, FourFour, fuel) == Err(RecursionLimit)
    decreases fuel
  {
    if fuel > 0 {
      assert Dur32ndPerTick(32, FourFour) == 1;
      var first := FirstPart(false, n, 4, 32, FourFour, fuel);
      assert first.Ok? && |first.value| == 1;
      var second := SecondPart(n, first.value[0], 32);
      assert !Representable(5, 32, FourFour);
      assert LastKeyAtMost(5) == 4;
      SplitNoteAsWrittenDiverges(second, fuel - 1);
      assert RestPart(false, second, 5, 32, FourFour, fuel) == Err(RecursionLimit);
    }
  }

  /** The corrected split of the note above is a complete decomposition of its 10 ticks. */
  lemma SplitNoteCorrectedFills()
    ensures var r := SplitNote(WithTicks(DefaultNote, 10), 1, 32, FourFour, 10);
      r.Ok? && TotalTicks(r.value) == 10
  {
    assert Dur32ndPerTick(32, FourFour) == 1;
    SplitNoteTotal(WithTicks(DefaultNote, 10), 1, 32, FourFour, 10);
    SplitNoteSound(WithTicks(DefaultNote, 10), 1, 32, FourFour, 10);
  }

  /** Every fragment of a decomposition lasts at least one tick, so the last one is shorter
      than the note. */
  lemma LastFragmentShorter(frags: seq<Note>, n: Note, ticksPerMeasure: int, ts: TimeSignature)
    requires ValidMeter(ticksPerMeasure, ts) && TiedFragments(frags, n, ticksPerMeasure, ts)
    ensures 1 <= Ticks(frags[|frags| - 1]) < Ticks(n)
  {
    var init := frags[..|frags| - 1];
    assert frags == init + [frags[|frags| - 1]];
    TotalTicksAppend(init, [frags[|frags| - 1]]);
    TotalTicksSingle(frags[|frags| - 1]);
    TotalAtLeastLength(init);
  }

  lemma {:induction false} TotalAtLeastLength(notes: seq<Note>)
    requires forall k :: 0 <= k < |notes| ==> Ticks(notes[k]) >= 1
    ensures TotalTicks(notes) >= |notes|
  {
    if notes != [] {
      TotalAtLeastLength(notes[1..]);
    }
  }

  /** What shift's loop relies on from either form of split_note: every fragment keeps the
      note's rest flag, and the last one is at least a tick long and shorter than the note. */
  predicate EndsShorter(frags: seq<Note>, n: Note)
  {
    frags != [] &&
    (forall k :: 0 <= k < |frags| ==> frags[k].isRest == n.isRest) &&
    1 <= Ticks(frags[|frags| - 1]) < Ticks(n)
  }

  /** Both forms of split_note, whenever they succeed, end in a fragment shorter than the
      note and keep its rest flag throughout. */
  lemma {:induction false} SplitNoteShape(corrected: bool, n: Note, f: int, ticksPerMeasure: int,
                                          ts: TimeSignature, fuel: nat)
    requires ValidMeter(ticksPerMeasure, ts) && 1 <= f < Ticks(n)
    ensures var r := SplitNoteWith(corrected, n, f, ticksPerMeasure, ts, fuel);
      r.Ok? ==> EndsShorter(r.value, n)
    decreases fuel, 3
  {
    var r := SplitNoteWith(corrected, n, f, ticksPerMeasure, ts, fuel);
    if r.Ok? {
      SplitNoteWithParts(corrected, n, f, ticksPerMeasure, ts, fuel);
      var first := FirstPart(corrected, n, f, ticksPerMeasure, ts, fuel).value;
      var tail := RestPart(corrected, SecondPart(n, first[|first| - 1], ticksPerMeasure), Ticks(n) - f,
                           ticksPerMeasure, ts, fuel).value;
      PartsShape(corrected, n, f, ticksPerMeasure, ts, fuel, first, tail);
    }
  }

  lemma {:induction false} PartsShape(corrected: bool, n: Note, f: int, ticksPerMeasure: int,
                                      ts: TimeSignature, fuel: nat, first: seq<Note>, tail: seq<Note>)
    requires ValidMeter(ticksPerMeasure, ts) && 1 <= f < Ticks(n) && fuel >= 1
    requires FirstPart(corrected, n, f, ticksPerMeasure, ts, fuel) == Ok(first)
    requires RestPart(corrected, SecondPart(n, first[|first| - 1], ticksPerMeasure), Ticks(n) - f,
                      ticksPerMeasure, ts, fuel) == Ok(tail)
    ensures EndsShorter(first + tail, n)
    decreases fuel, 2
  {
    var second := SecondPart(n, first[|first| - 1], ticksPerMeasure);
    FirstPartShape(corrected, n, f, ticksPerMeasure, ts, fuel);
    RestPartShape(corrected, second, Ticks(n) - f, ticksPerMeasure, ts, fuel);
    JoinShape(first, tail, n, second);
  }

  /** Fragments of n's rest flag in front of fragments ending shorter than a note no longer
      than n end shorter than n. */
  lemma JoinShape(first: seq<Note>, tail: seq<Note>, n: Note, second: Note)
    requires forall k :: 0 <= k < |first| ==> first[k].isRest == n.isRest
    requires EndsShorter(tail, second)
    requires second.isRest == n.isRest && Ticks(second) <= Ticks(n)
    ensures EndsShorter(first + tail, n)
  {
    var c := first + tail;
    assert c[|c| - 1] == tail[|tail| - 1];
    forall k | 0 <= k < |c|
      ensures c[k].isRest == n.isRest
    {
      if k >= |first| {
        assert c[k] == tail[k - |first|];
      }
    }
  }

  lemma {:induction false} FirstPartShape(corrected: bool, n: Note, f: int, ticksPerMeasure: int,
                                          ts: TimeSignature, fuel: nat)
    requires ValidMeter(ticksPerMeasure, ts) && 1 <= f && fuel >= 1
    ensures var r := FirstPart(corrected, n, f, ticksPerMeasure, ts, fuel);
      r.Ok? ==> forall k :: 0 <= k < |r.value| ==> r.value[k].isRest == n.isRest
    decreases fuel, 0
  {
    if !Representable(f, ticksPerMeasure, ts) && LastKeyAtMost(f) != f {
      SplitNoteShape(corrected, WithTicks(n, f), LastKeyAtMost(f), ticksPerMeasure, ts, fuel - 1);
    }
  }

  lemma {:induction false} RestPartShape(corrected: bool, second: Note, rest: int, ticksPerMeasure: int,
                                         ts: TimeSignature, fuel: nat)
    requires ValidMeter(ticksPerMeasure, ts) && 1 <= rest < Ticks(second) && fuel >= 1
    ensures var r := RestPart(corrected, second, rest, ticksPerMeasure, ts, fuel);
      r.Ok? ==> EndsShorter(r.value, second)
    decreases fuel, 1
  {
    if !Representable(rest, ticksPerMeasure, ts) {
      if corrected {
        CorrectedRestPartShape(second, rest, ticksPerMeasure, ts, fuel);
      } else {
        WrittenRestPartShape(second, rest, ticksPerMeasure, ts, fuel);
      }
    }
  }

  /** The corrected second block re-splits the second half cut to its remaining ticks. */
  lemma {:induction false} CorrectedRestPartShape(second: Note, rest: int, ticksPerMeasure: int,
                                                  ts: TimeSignature, fuel: nat)
    requires ValidMeter(ticksPerMeasure, ts) && 1 <= rest < Ticks(second) && fuel >= 1
    requires !Representable(rest, ticksPerMeasure, ts)
    ensures var r := RestPart(true, second, rest, ticksPerMeasure, ts, fuel);
      r.Ok? ==> EndsShorter(r.value, second)
    decreases fuel, 0
  {
    var key := LastKeyAtMost(rest);
    var r := RestPart(true, second, rest, ticksPerMeasure, ts, fuel);
    if r.Ok? {
      var m := WithTicks(second, rest);
      SplitNoteShape(true, m, key, ticksPerMeasure, ts, fuel - 1);
      var pieces := SplitNoteWith(true, m, key, ticksPerMeasure, ts, fuel - 1).value;
      assert r.value == [] + pieces;
      JoinShape([], pieces, second, m);
    }
  }

  /** The second block as written keeps the failed note in front of its re-split pieces. */
  lemma {:induction false} WrittenRestPartShape(second: Note, rest: int, ticksPerMeasure: int,
                                                ts: TimeSignature, fuel: nat)
    requires ValidMeter(ticksPerMeasure, ts) && 1 <= rest < Ticks(second) && fuel >= 1
    requires !Representable(rest, ticksPerMeasure, ts)
    ensures var r := RestPart(false, second, rest, ticksPerMeasure, ts, fuel);
      r.Ok? ==> EndsShorter(r.value, second)
    decreases fuel, 0
  {
    var key := LastKeyAtMost(rest);
    var r := RestPart(false, second, rest, ticksPerMeasure, ts, fuel);
    if r.Ok? {
      SplitNoteShape(false, second, key, ticksPerMeasure, ts, fuel - 1);
      var pieces := SplitNoteWith(false, second, key, ticksPerMeasure, ts, fuel - 1).value;
      assert r.value == [second] + pieces;
      JoinShape([second], pieces, second, second);
    }
  }

  // ---------------------------------------------------------------------------
  // Shifting a voice (shift)
  // ---------------------------------------------------------------------------

  /** A note moved v diatonic steps, with the alteration the key signature gives its new step. */
  function Transposed(n: Note, v: int, fifths: int): (r: Note)
    ensures 7 * r.pitch.octave + r.pitch.step == 7 * n.pitch.octave + n.pitch.step + v
    ensures r.pitch.alter == KeyAlters(fifths)[r.pitch.step]
    ensures r == n.(pitch := r.pitch)
  {
    var pos := 7 * n.pitch.octave + n.pitch.step + v;
    n.(pitch := Pitch(pos % 7, KeyAlters(fifths)[pos % 7], pos / 7))
  }

  /** A step and octave are determined by 7 * octave + step. */
  lemma DiatonicPositionUnique(a: Pitch, b: Pitch)
    requires 7 * a.octave + a.step == 7 * b.octave + b.step
    ensures a.step == b.step && a.octave == b.octave
  {
  }

  /** Transposing back down restores the step and octave. */
  lemma TransposedBack(n: Note, v: int, fifths: int)
    ensures Transposed(Transposed(n, v, fifths), -v, fifths).pitch.step == n.pitch.step
    ensures Transposed(Transposed(n, v, fifths), -v, fifths).pitch.octave == n.pitch.octave
  {
    DiatonicPositionUnique(Transposed(Transposed(n, v, fifths), -v, fifths).pitch, n.pitch);
  }

  /** The vertical part of shift: every note transposed; a zero shift leaves the voice alone. */
  function VerticallyShifted(voice: NoteSeq, v: int, fifths: int): (r: NoteSeq)
    ensures |r| == |voice|
    ensures v == 0 ==> r == voice
  {
    if v == 0 then voice else seq(|voice|, k requires 0 <= k < |voice| => Transposed(voice[k], v, fifths))
  }

  /** A note starting h ticks later, its position taken modulo the measure. */
  function Moved(n: Note, h: int, ticksPerMeasure: int): (r: Note)
    requires ticksPerMeasure > 0
    ensures r == n.(tickTimePosition := r.tickTimePosition)
    ensures -ticksPerMeasure < r.tickTimePosition < ticksPerMeasure
    ensures n.tickTimePosition + h >= 0 ==> r.tickTimePosition == (n.tickTimePosition + h) % ticksPerMeasure
  {
    n.(tickTimePosition := Rem(n.tickTimePosition + h, ticksPerMeasure))
  }

  function HorizontallyMoved(voice: NoteSeq, h: int, ticksPerMeasure: int): (r: NoteSeq)
    requires ticksPerMeasure > 0
    ensures |r| == |voice|
  {
    seq(|voice|, k requires 0 <= k < |voice| => Moved(voice[k], h, ticksPerMeasure))
  }

  /** A fragment at least a tick long whose duration data is what ticks_to_duration_data
      gives for its length. */
  predicate LookedUp(x: Note, ticksPerMeasure: int, ts: TimeSignature)
    requires ValidMeter(ticksPerMeasure, ts)
  {
    Ticks(x) >= 1 && TicksToDurationData(Ticks(x), ticksPerMeasure, ts) == Ok(x.duration)
  }

  /** The rests shift puts in front of the voice: rests with looked-up durations, lasting h
      ticks in all, the last one within a measure. */
  predicate RestPrefix(rests: NoteSeq, h: int, ticksPerMeasure: int, ts: TimeSignature)
    requires ValidMeter(ticksPerMeasure, ts)
  {
    |rests| >= 1 &&
    (forall k :: 0 <= k < |rests| ==> rests[k].isRest && LookedUp(rests[k], ticksPerMeasure, ts)) &&
    TotalTicks(rests) == h &&
    Ticks(rests[|rests| - 1]) <= ticksPerMeasure
  }

  /** The rest shift starts from: a default note marked as a rest, lasting h ticks. */
  function OriginalRest(h: int): (r: Note)
    ensures r.isRest && Ticks(r) == h
  {
    DefaultNote.(isRest := true, duration := DefaultNote.duration.(timeTicks := h))
  }

  predicate IllegalShift(voice: NoteSeq, v: int) {
    v != 0 && |voice| > 0 && (v < -6 || v > 6)
  }

  /** The body of shift's per-note loop: the step is moved within the octave by C++
      remainder arithmetic on non-negative operands, the octave adjusted when the step wraps
      around, and the alteration read from alters_by_key. */
  method TransposeNote(n: Note, vShift: int, fifths: int) returns (moved: Note)
    requires -6 <= vShift <= 6 && vShift != 0 && fifths <= 6
    ensures moved == Transposed(n, vShift, fifths)
  {
    var destination := n.pitch.step + vShift;
    var step: int;
    var octave := n.pitch.octave;
    if vShift > 0 {
      step := destination % 7;
      if destination > 6 {
        octave := octave + 1;
      }
    } else {
      step := (destination + 21) % 7;
      if destination < 0 {
        octave := octave - 1;
      }
    }
    assert 7 * octave + step == 7 * n.pitch.octave + destination;
    var alters := AltersByKey(fifths);
    moved := n.(pitch := Pitch(step, alters[step], octave));
    DiatonicPositionUnique(moved.pitch, Transposed(n, vShift, fifths).pitch);
  }

  /** The per-note loop of shift's vertical part; the range check sits inside the loop, so
      an empty voice is never rejected. */
  method TransposeVoice(voice: NoteSeq, vShift: int, fifths: int) returns (r: Result<NoteSeq>)
    requires !IllegalShift(voice, vShift) && vShift != 0 && |voice| > 0 ==> fifths <= 6
    ensures IllegalShift(voice, vShift) ==> r == Err(IllegalVerticalShift(vShift))
    ensures !IllegalShift(voice, vShift) ==> r == Ok(VerticallyShifted(voice, vShift, fifths))
  {
    var notes := voice;
    if vShift != 0 {
      for i := 0 to |notes|
        invariant |notes| == |voice|
        invariant 0 < i ==> -6 <= vShift <= 6
        invariant forall k :: 0 <= k < i ==> notes[k] == Transposed(voice[k], vShift, fifths)
        invariant forall k :: i <= k < |voice| ==> notes[k] == voice[k]
      {
        if vShift < -6 || vShift > 6 {
          return Err(IllegalVerticalShift(vShift));
        }
        var moved := TransposeNote(notes[i], vShift, fifths);
        notes := notes[i := moved];
      }
      assert notes == VerticallyShifted(voice, vShift, fifths);
    }
    return Ok(notes);
  }

  /** The position loop of shift's horizontal part. */
  method MoveVoice(voice: NoteSeq, hShift: int, ticksPerMeasure: int) returns (notes: NoteSeq)
    requires ticksPerMeasure > 0
    ensures notes == HorizontallyMoved(voice, hShift, ticksPerMeasure)
  {
    notes := voice;
    for i := 0 to |notes|
      invariant |notes| == |voice|
      invariant forall k :: 0 <= k < i ==> notes[k] == Moved(voice[k], hShift, ticksPerMeasure)
      invariant forall k :: i <= k < |voice| ==> notes[k] == voice[k]
    {
      var n := notes[i];
      notes := notes[i := n.(tickTimePosition := Rem(n.tickTimePosition + hShift, ticksPerMeasure))];
    }
  }

  /** Replacing the last note by fragments that last as long keeps the total. */
  lemma ReplaceLastTotal(notes: NoteSeq, frags: NoteSeq)
    requires notes != [] && TotalTicks(frags) == Ticks(notes[|notes| - 1])
    ensures TotalTicks(notes[..|notes| - 1] + frags) == TotalTicks(notes)
  {
    var init := notes[..|notes| - 1];
    assert notes == init + [notes[|notes| - 1]];
    TotalTicksAppend(init, [notes[|notes| - 1]]);
    TotalTicksSingle(notes[|notes| - 1]);
    TotalTicksAppend(init, frags);
  }

  /** shift's while loop: as long as the last rest lasts longer than a measure, it is
      replaced by its split after one measure, each split given one level of recursion per
      tick of the rest it splits. */
  function SplitLongRests(corrected: bool, rests: NoteSeq, ticksPerMeasure: int, ts: TimeSignature): (r: Result<NoteSeq>)
    requires ValidMeter(ticksPerMeasure, ts) && rests != [] && Ticks(rests[|rests| - 1]) >= 1
    ensures r.Err? ==> r.error == RecursionLimit
    ensures r.Ok? ==> r.value != [] && 1 <= Ticks(r.value[|r.value| - 1]) <= ticksPerMeasure
    ensures r.Ok? && (forall k :: 0 <= k < |rests| ==> rests[k].isRest) ==>
      forall k :: 0 <= k < |r.value| ==> r.value[k].isRest
    decreases Ticks(rests[|rests| - 1])
  {
    var last := rests[|rests| - 1];
    if Ticks(last) <= ticksPerMeasure then Ok(rests)
    else
      var pieces :- SplitNoteWith(corrected, last, ticksPerMeasure, ticksPerMeasure, ts, Ticks(last));
      SplitNoteShape(corrected, last, ticksPerMeasure, ticksPerMeasure, ts, Ticks(last));
      ReplaceLastShape(rests, pieces);
      var next := rests[..|rests| - 1] + pieces;
      SplitLongRests(corrected, next, ticksPerMeasure, ts)
  }

  /** Replacing the last rest by its split keeps the rests rests, and the split's last
      fragment becomes the last rest. */
  lemma ReplaceLastShape(rests: NoteSeq, pieces: NoteSeq)
    requires rests != [] && EndsShorter(pieces, rests[|rests| - 1])
    ensures var next := rests[..|rests| - 1] + pieces;
      next != [] && next[|next| - 1] == pieces[|pieces| - 1] &&
      ((forall k :: 0 <= k < |rests| ==> rests[k].isRest) ==> forall k :: 0 <= k < |next| ==> next[k].isRest)
  {
    var next := rests[..|rests| - 1] + pieces;
    if forall k :: 0 <= k < |rests| ==> rests[k].isRest {
      forall k | 0 <= k < |next|
        ensures next[k].isRest
      {
        if k >= |rests| - 1 {
          assert next[k] == pieces[k - (|rests| - 1)];
        }
      }
    }
  }

  /** The rests shift puts in front of a voice shifted by h ticks: a rest of more than a
      measure split measure by measure; a shorter one given its looked-up duration, or,
      when h ticks are not representable, split at the largest table key below h. */
  function LeadingRestsOf(corrected: bool, h: int, ticksPerMeasure: int, ts: TimeSignature): (r: Result<NoteSeq>)
    requires ValidMeter(ticksPerMeasure, ts) && h >= 1
    ensures r.Err? ==> r.error == RecursionLimit
    ensures r.Ok? ==>
      r.value != [] && (forall k :: 0 <= k < |r.value| ==> r.value[k].isRest) &&
      1 <= Ticks(r.value[|r.value| - 1]) <= ticksPerMeasure
  {
    var rest := OriginalRest(h);
    if h > ticksPerMeasure then SplitLongRests(corrected, [rest], ticksPerMeasure, ts)
    else
      match TicksToDurationData(h, ticksPerMeasure, ts)
      case Ok(d) => Ok([rest.(duration := d)])
      case Err(_) =>
        var key := LastKeyAtMost(h);
        if key == h then Err(RecursionLimit)
        else
          SplitNoteShape(corrected, rest, key, ticksPerMeasure, ts, h);
          SplitNoteWith(corrected, rest, key, ticksPerMeasure, ts, h)
  }

  /** With the corrected split, the rests last exactly h ticks, every one of them looked up,
      and they are always found when a tick is one 32nd note. */
  lemma LeadingRestsCorrect(h: int, ticksPerMeasure: int, ts: TimeSignature)
    requires ValidMeter(ticksPerMeasure, ts) && h >= 1
    ensures var r := LeadingRestsOf(true, h, ticksPerMeasure, ts);
      (r.Ok? ==> RestPrefix(r.value, h, ticksPerMeasure, ts)) &&
      (Dur32ndPerTick(ticksPerMeasure, ts) == 1 ==> r.Ok?)
  {
    var rest := OriginalRest(h);
    if h > ticksPerMeasure {
      TotalTicksSingle(rest);
      SplitLongRestsCorrect([rest], h, ticksPerMeasure, ts);
    } else if Representable(h, ticksPerMeasure, ts) {
      TotalTicksSingle(rest.(duration := TicksToDurationData(h, ticksPerMeasure, ts).value));
    } else {
      var key := LastKeyAtMost(h);
      if Dur32ndPerTick(ticksPerMeasure, ts) == 1 {
        TableKeyRepresentable(h, ticksPerMeasure, ts);
        SplitNoteTotal(rest, key, ticksPerMeasure, ts, h);
      }
      if key != h {
        SplitNoteSound(rest, key, ticksPerMeasure, ts, h);
      }
    }
  }

  /** The loop's invariant with the corrected split: rests lasting h ticks, all looked up but
      possibly the last, which is looked up unless it is still longer than a measure. */
  lemma {:induction false} SplitLongRestsCorrect(rests: NoteSeq, h: int, ticksPerMeasure: int, ts: TimeSignature)
    requires ValidMeter(ticksPerMeasure, ts) && rests != [] && TotalTicks(rests) == h
    requires forall k :: 0 <= k < |rests| ==> rests[k].isRest
    requires forall k :: 0 <= k < |rests| - 1 ==> LookedUp(rests[k], ticksPerMeasure, ts)
    requires Ticks(rests[|rests| - 1]) > ticksPerMeasure || LookedUp(rests[|rests| - 1], ticksPerMeasure, ts)
    ensures Ticks(rests[|rests| - 1]) >= 1
    ensures var r := SplitLongRests(true, rests, ticksPerMeasure, ts);
      (r.Ok? ==> RestPrefix(r.value, h, ticksPerMeasure, ts)) &&
      (Dur32ndPerTick(ticksPerMeasure, ts) == 1 ==> r.Ok?)
    decreases Ticks(rests[|rests| - 1])
  {
    var last := rests[|rests| - 1];
    if Ticks(last) > ticksPerMeasure {
      var pieces := SplitNote(last, ticksPerMeasure, ticksPerMeasure, ts, Ticks(last));
      if Dur32ndPerTick(ticksPerMeasure, ts) == 1 {
        SplitNoteTotal(last, ticksPerMeasure, ticksPerMeasure, ts, Ticks(last));
      }
      if pieces.Ok? {
        var p := pieces.value;
        SplitNoteSound(last, ticksPerMeasure, ticksPerMeasure, ts, Ticks(last));
        LastFragmentShorter(p, last, ticksPerMeasure, ts);
        ReplaceLastTotal(rests, p);
        var next := rests[..|rests| - 1] + p;
        forall k | 0 <= k < |next|
          ensures next[k].isRest && LookedUp(next[k], ticksPerMeasure, ts)
        {
          if k >= |rests| - 1 {
            assert next[k] == p[k - (|rests| - 1)];
          } else {
            assert next[k] == rests[k];
          }
        }
        SplitLongRestsCorrect(next, h, ticksPerMeasure, ts);
      }
    }
  }

  /** shift's rests, by its loop and its catch block. */
  method LeadingRests(corrected: bool, hShift: int, ticksPerMeasure: int, ts: TimeSignature) returns (r: Result<NoteSeq>)
    requires ValidMeter(ticksPerMeasure, ts) && hShift >= 1
    ensures r == LeadingRestsOf(corrected, hShift, ticksPerMeasure, ts)
  {
    var rest := OriginalRest(hShift);
    if hShift > ticksPerMeasure {
      var rests := [rest];
      while Ticks(rests[|rests| - 1]) > ticksPerMeasure
        invariant rests != [] && Ticks(rests[|rests| - 1]) >= 1
        invariant SplitLongRests(corrected, rests, ticksPerMeasure, ts) ==
                  SplitLongRests(corrected, [rest], ticksPerMeasure, ts)
        decreases Ticks(rests[|rests| - 1])
      {
        var last := rests[|rests| - 1];
        var pieces := SplitNoteWith(corrected, last, ticksPerMeasure, ticksPerMeasure, ts, Ticks(last));
        if pieces.Err? {
          return Err(pieces.error);
        }
        SplitNoteShape(corrected, last, ticksPerMeasure, ticksPerMeasure, ts, Ticks(last));
        ReplaceLastShape(rests, pieces.value);
        rests := rests[..|rests| - 1] + pieces.value;
      }
      return Ok(rests);
    } else {
      var d := TicksToDurationData(hShift, ticksPerMeasure, ts);
      if d.Ok? {
        return Ok([rest.(duration := d.value)]);
      }
      var key := LastKeyBefore(hShift);
      LastKeyBeforeIsLastKeyAtMost(hShift);
      if key == hShift {
        return Err(RecursionLimit);
      }
      r := SplitNoteWith(corrected, rest, key, ticksPerMeasure, ts, hShift);
    }
  }

  /** shift(voice, v, h): the voice transposed v diatonic steps into the key of `fifths`,
      then, when h is not zero, every note moved h ticks later behind the rests of
      LeadingRestsOf. `corrected` selects the split_note the rests are split with; false is
      the source as written. */
  method Shift(corrected: bool, voice: NoteSeq, vShift: int, hShift: int, fifths: int,
               ticksPerMeasure: int, ts: TimeSignature) returns (r: Result<NoteSeq>)
    requires hShift != 0 ==> ValidMeter(ticksPerMeasure, ts)
    requires hShift >= 0
    requires !IllegalShift(voice, vShift) && vShift != 0 && |voice| > 0 ==> fifths <= 6
    ensures r == Err(IllegalVerticalShift(vShift)) <==> IllegalShift(voice, vShift)
    ensures !IllegalShift(voice, vShift) && hShift == 0 ==> r == Ok(VerticallyShifted(voice, vShift, fifths))
    ensures !IllegalShift(voice, vShift) && hShift != 0 ==>
      var rests := LeadingRestsOf(corrected, hShift, ticksPerMeasure, ts);
      var moved := HorizontallyMoved(VerticallyShifted(voice, vShift, fifths), hShift, ticksPerMeasure);
      r == if rests.Ok? then Ok(rests.value + moved) else Err(rests.error)
    ensures corrected && r.Ok? && hShift != 0 ==>
      |r.value| > |voice| &&
      r.value[|r.value| - |voice|..] == HorizontallyMoved(VerticallyShifted(voice, vShift, fifths), hShift, ticksPerMeasure) &&
      RestPrefix(r.value[..|r.value| - |voice|], hShift, ticksPerMeasure, ts)
    ensures corrected && !IllegalShift(voice, vShift) && hShift != 0 && Dur32ndPerTick(ticksPerMeasure, ts) == 1 ==> r.Ok?
  {
    var transposed := TransposeVoice(voice, vShift, fifths);
    if transposed.Err? {
      return transposed;
    }
    var notes := transposed.value;
    if hShift != 0 {
      notes := MoveVoice(notes, hShift, ticksPerMeasure);
      var rests := LeadingRests(corrected, hShift, ticksPerMeasure, ts);
      if corrected {
        LeadingRestsCorrect(hShift, ticksPerMeasure, ts);
      }
      if rests.Err? {
        return Err(rests.error);
      }
      var shifted := rests.value + notes;
      assert shifted[..|shifted| - |voice|] == rests.value;
      assert shifted[|shifted| - |voice|..] == notes;
      return Ok(shifted);
    }
    return Ok(notes);
  }

  /** As written, a 21-tick note split at 16 or at 4 in 4/4 with 32 ticks per measure never
      returns: the remainder (5 or 17 ticks) is not a table entry, and its re-split works on
      a copy that still lasts 21 ticks, cut at 4 or at 16 in turn. */
  lemma {:induction false} SplitNoteAsWrittenCycles(n: Note, f: int, fuel: nat)
    requires Ticks(n) == 21 && (f == 4 || f == 16)
    ensures SplitNoteAsWritten(n, f, 32, FourFour, fuel) == Err(RecursionLimit)
    decreases fuel
  {
    if fuel > 0 {
      assert Dur32ndPerTick(32, FourFour) == 1;
      var first := FirstPart(false, n, f, 32, FourFour, fuel);
      assert first.Ok? && |first.value| == 1;
      var second := SecondPart(n, first.value[0], 32);
      assert !Representable(21 - f, 32, FourFour);
      assert LastKeyAtMost(21 - f) == 20 - f;
      SplitNoteAsWrittenCycles(second, 20 - f, fuel - 1);
      assert RestPart(false, second, 21 - f, 32, FourFour, fuel) == Err(RecursionLimit);
    }
  }

  /** So shift as written never returns for a horizontal shift of 21 ticks in that meter,
      where the corrected rests last exactly 21 ticks. */
  lemma LeadingRestsAsWrittenDiverges()
    ensures LeadingRestsOf(false, 21, 32, FourFour) == Err(RecursionLimit)
    ensures LeadingRestsOf(true, 21, 32, FourFour).Ok?
  {
    assert Dur32ndPerTick(32, FourFour) == 1;
    assert !Representable(21, 32, FourFour);
    assert LastKeyAtMost(21) == 16;
    SplitNoteAsWrittenCycles(OriginalRest(21), 16, 21);
    LeadingRestsCorrect(21, 32, FourFour);
  }

  /** As written, a horizontal shift of 112 ticks in that meter puts rests lasting 256 ticks
      in front of the voice: the first split keeps the 112-tick copy beside its re-split
      pieces of 64 and 48 ticks, and the loop then splits the 48 into 32 and 16. */
  lemma LeadingRestsAsWrittenOverfills()
    ensures var r := LeadingRestsOf(false, 112, 32, FourFour);
      r.Ok? && |r.value| == 5 && TotalTicks(r.value) == 256
  {
    var rest := OriginalRest(112);
    assert Dur32ndPerTick(32, FourFour) == 1;
    OverfillsMeasure(rest);
    var p := SplitNoteWith(false, rest, 32, 32, FourFour, 112).value;
    assert [rest][..0] + p == p;
    assert LeadingRestsOf(false, 112, 32, FourFour) == SplitLongRests(false, p, 32, FourFour);
    OverfillsLastRest(p);
  }

  /** The loop then splits the trailing 48 ticks into 32 and 16 and stops. */
  lemma OverfillsLastRest(p: NoteSeq)
    requires |p| == 4 && Ticks(p[0]) == 32 && Ticks(p[1]) == 112 && Ticks(p[2]) == 64 && Ticks(p[3]) == 48
    ensures var r := SplitLongRests(false, p, 32, FourFour);
      r.Ok? && |r.value| == 5 && TotalTicks(r.value) == 256
  {
    assert Dur32ndPerTick(32, FourFour) == 1;
    var last := p[3];
    assert Representable(32, 32, FourFour) && Representable(16, 32, FourFour);
    SplitNoteTwoParts(false, last, 32, 32, FourFour, 48);
    var q := SplitNoteWith(false, last, 32, 32, FourFour, 48).value;
    var done := p[..3] + q;
    assert done[|done| - 1] == q[1];
    assert SplitLongRests(false, p, 32, FourFour) == SplitLongRests(false, done, 32, FourFour);
    assert SplitLongRests(false, done, 32, FourFour) == Ok(done);
    assert done == [p[0], p[1], p[2]] + [q[0]] + [q[1]];
    TotalTicksFive(done);
  }

  /** The first split of that 112-tick rest: 32, then the kept 112-tick copy, then 64 and 48. */
  lemma OverfillsMeasure(rest: Note)
    requires Ticks(rest) == 112
    ensures var p := SplitNoteWith(false, rest, 32, 32, FourFour, 112);
      p.Ok? && |p.value| == 4 &&
      Ticks(p.value[0]) == 32 && Ticks(p.value[1]) == 112 && Ticks(p.value[2]) == 64 && Ticks(p.value[3]) == 48
  {
    assert Dur32ndPerTick(32, FourFour) == 1;
    var first := FirstPart(false, rest, 32, 32, FourFour, 112);
    assert first.Ok? && |first.value| == 1 && Ticks(first.value[0]) == 32;
    var second := SecondPart(rest, first.value[0], 32);
    assert !Representable(80, 32, FourFour);
    LastKeyAtMostLargest(80, 64);
    assert LastKeyAtMost(80) == 64;
    assert Representable(64, 32, FourFour) && Representable(48, 32, FourFour);
    SplitNoteTwoParts(false, second, 64, 32, FourFour, 111);
    var pieces := SplitNoteWith(false, second, 64, 32, FourFour, 111).value;
    var tail := RestPart(false, second, 80, 32, FourFour, 112);
    assert tail == Ok([second] + pieces);
    assert SplitNoteWith(false, rest, 32, 32, FourFour, 112) == Ok(first.value + tail.value);
  }

  lemma TotalTicksFive(s: NoteSeq)
    requires |s| == 5
    ensures TotalTicks(s) == Ticks(s[0]) + Ticks(s[1]) + Ticks(s[2]) + Ticks(s[3]) + Ticks(s[4])
  {
    var t := s[2..];
    assert t[1..][1..] == [s[4]];
    TotalTicksSingle(s[4]);
    assert TotalTicks(t) == Ticks(s[2]) + Ticks(s[3]) + Ticks(s[4]);
    assert s[1..][1..] == t;
  }

  // ---------------------------------------------------------------------------
  // Per-tick expansion (the loop in main that indexes every voice by tick)
  // ---------------------------------------------------------------------------

  function Repeat(n: Note, count: nat): (r: NoteSeq)
    ensures |r| == count && forall k :: 0 <= k < count ==> r[k] == n
  {
    seq(count, _ => n)
  }

  /** The number of times the loop appends a note: its duration, or none when that is not positive. */
  function TickCount(n: Note): nat {
    if Ticks(n) > 0 then Ticks(n) else 0
  }

  /** A voice with one entry per tick. */
  function Expanded(voice: NoteSeq): (r: NoteSeq)
    ensures forall k :: 0 <= k < |r| ==> r[k] in voice
  {
    if voice == [] then []
    else Expanded(voice[..|voice| - 1]) + Repeat(voice[|voice| - 1], TickCount(voice[|voice| - 1]))
  }

  method NotesByTick(voices: seq<NoteSeq>) returns (byTick: seq<NoteSeq>)
    ensures |byTick| == |voices|
    ensures forall v :: 0 <= v < |voices| ==> byTick[v] == Expanded(voices[v])
  {
    byTick := [];
    for v := 0 to |voices|
      invariant |byTick| == v
      invariant forall w :: 0 <= w < v ==> byTick[w] == Expanded(voices[w])
    {
      var voice := voices[v];
      var forVoice: NoteSeq := [];
      for j := 0 to |voice|
        invariant forVoice == Expanded(voice[..j])
      {
        var note := voice[j];
        var i := 0;
        while i < Ticks(note)
          invariant 0 <= i && i <= TickCount(note)
          invariant forVoice == Expanded(voice[..j]) + Repeat(note, i)
        {
          assert Repeat(note, i + 1) == Repeat(note, i) + [note];
          forVoice := forVoice + [note];
          i := i + 1;
        }
        assert voice[..j + 1][..j] == voice[..j];
      }
      assert voice[..|voice|] == voice;
      byTick := byTick + [forVoice];
    }
  }

  lemma {:induction false} ExpandedAppend(a: NoteSeq, b: NoteSeq)
    ensures Expanded(a + b) == Expanded(a) + Expanded(b)
    decreases |b|
  {
    if b == [] {
      assert a + b == a;
    } else {
      var init := b[..|b| - 1];
      assert (a + b)[..|a + b| - 1] == a + init;
      ExpandedAppend(a, init);
    }
  }

  /** With no negative durations, a voice has as many ticks as its durations add up to. */
  lemma {:induction false} ExpandedLength(voice: NoteSeq)
    requires forall k :: 0 <= k < |voice| ==> Ticks(voice[k]) >= 0
    ensures |Expanded(voice)| == TotalTicks(voice)
    decreases |voice|
  {
    if voice != [] {
      var init := voice[..|voice| - 1];
      ExpandedLength(init);
      assert voice == init + [voice[|voice| - 1]];
      TotalTicksAppend(init, [voice[|voice| - 1]]);
      TotalTicksSingle(voice[|voice| - 1]);
    }
  }

  lemma {:induction false} ExpandedRests(voice: NoteSeq)
    requires forall k :: 0 <= k < |voice| ==> voice[k].isRest
    ensures forall t :: 0 <= t < |Expanded(voice)| ==> Expanded(voice)[t].isRest
    decreases |voice|
  {
    if voice != [] {
      ExpandedRests(voice[..|voice| - 1]);
    }
  }

  /** A voice behind a rest prefix of h ticks sounds nothing for its first h ticks and then
      plays the rest of the voice tick by tick. */
  lemma FollowerEntersLate(rests: NoteSeq, notes: NoteSeq, h: int, ticksPerMeasure: int, ts: TimeSignature)
    requires ValidMeter(ticksPerMeasure, ts) && RestPrefix(rests, h, ticksPerMeasure, ts)
    ensures var ticks := Expanded(rests + notes);
      0 <= h <= |ticks| && (forall t :: 0 <= t < h ==> ticks[t].isRest) && ticks[h..] == Expanded(notes)
  {
    ExpandedLength(rests);
    ExpandedRests(rests);
    ExpandedAppend(rests, notes);
  }
}
