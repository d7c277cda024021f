/** The voice-independence check: a scan of a sequence of sonorities for parallel fifths
    and octaves, reporting each finding once per pair of sonority ids into an error box. */
module CounterpointChecker {
  import opened Wrappers
  import opened MxApi
  import opened Sonorities

  /** Where a parallel was found. */
  datatype Between = AdjacentNotesOrDownbeats | WeakBeatAndDownbeat | ConsecutiveUpbeats

  /** The finding a message describes; its wording is DescriptionText. */
  datatype Description = ParallelFifths(between: Between) | ParallelOctaves(between: Between)

  function BetweenText(b: Between): string {
    match b
    case AdjacentNotesOrDownbeats => "adjacent notes or downbeats"
    case WeakBeatAndDownbeat => "weak beat and downbeat"
    case ConsecutiveUpbeats => "consecutive upbeats"
  }

  function DescriptionText(d: Description): string {
    match d
    case ParallelFifths(b) => "Parallel fifths between " + BetweenText(b)
    case ParallelOctaves(b) => "Parallel octaves between " + BetweenText(b)
  }

  /** An error or warning: what is wrong and the ids of the two sonorities it concerns. */
  datatype Message = Message(description: Description, index1: int, index2: int)

  /** Messages are told apart by their pair of sonority ids only, never by their text. */
  function IndexPair(m: Message): (int, int) {
    (m.index1, m.index2)
  }

  predicate SamePair(a: Message, b: Message) {
    a.index1 == b.index1 && a.index2 == b.index2
  }

  predicate HasPair(box: seq<Message>, m: Message) {
    exists k :: 0 <= k < |box| && SamePair(box[k], m)
  }

  function IndexPairs(box: seq<Message>): set<(int, int)> {
    set k | 0 <= k < |box| :: IndexPair(box[k])
  }

  predicate NoDuplicatePairs(box: seq<Message>) {
    forall k, l :: 0 <= k < l < |box| ==> !SamePair(box[k], box[l])
  }

  // ---------------------------------------------------------------------------------
  // Message boxes
  // ---------------------------------------------------------------------------------

  /** What send_error_message leaves in the error box: the box unchanged when a message
      with the same pair is already there, and the message appended otherwise. */
  function WithError(box: seq<Message>, error: Message): (r: seq<Message>)
    ensures |box| <= |r| <= |box| + 1 && r[..|box|] == box
  {
    if HasPair(box, error) then box else box + [error]
  }

  /** send_error_message only appends, and appends exactly when the pair is new; afterwards
      the pair is always present. */
  lemma WithErrorAppendsIffNew(box: seq<Message>, error: Message)
    ensures |WithError(box, error)| == |box| + 1 <==> !HasPair(box, error)
    ensures |WithError(box, error)| == |box| + 1 ==> WithError(box, error)[|box|] == error
    ensures HasPair(WithError(box, error), error)
  {
    if !HasPair(box, error) {
      assert SamePair((box + [error])[|box|], error);
    }
  }

  /** What send_warning_message leaves in the warning box: the warning is appended only
      when neither a warning nor an error with the same pair exists. */
  function WithWarning(warnings: seq<Message>, errors: seq<Message>, warning: Message): (r: seq<Message>)
    ensures |warnings| <= |r| <= |warnings| + 1 && r[..|warnings|] == warnings
    ensures |r| == |warnings| + 1 <==> !HasPair(warnings, warning) && !HasPair(errors, warning)
    ensures |r| == |warnings| + 1 ==> r[|warnings|] == warning
  {
    if HasPair(warnings, warning) || HasPair(errors, warning) then warnings
    else warnings + [warning]
  }

  /** The error box after sending each message of `ms` in order. */
  function SendAll(box: seq<Message>, ms: seq<Message>): seq<Message>
    decreases |ms|
  {
    if ms == [] then box else WithError(SendAll(box, ms[..|ms| - 1]), ms[|ms| - 1])
  }

  /** Sending a batch keeps what was in the box, in place, and adds at most one message per
      message sent. */
  lemma {:induction false} SendAllKeepsBox(box: seq<Message>, ms: seq<Message>)
    decreases |ms|
    ensures |box| <= |SendAll(box, ms)| <= |box| + |ms| && SendAll(box, ms)[..|box|] == box
  {
    if ms != [] {
      var before := SendAll(box, ms[..|ms| - 1]);
      SendAllKeepsBox(box, ms[..|ms| - 1]);
      WithErrorAppendsIffNew(before, ms[|ms| - 1]);
      assert WithError(before, ms[|ms| - 1])[..|box|] == before[..|box|];
    }
  }

  /** A message vector the source passes by reference and appends to in place. */
  class MessageBox {
    var messages: seq<Message>

    constructor ()
      ensures messages == []
    {
      messages := [];
    }
  }

  /** send_error_message: a scan of the existing errors for the same pair, then an append. */
  method SendErrorMessage(error: Message, errorBox: MessageBox)
    modifies errorBox
    ensures errorBox.messages == WithError(old(errorBox.messages), error)
  {
    for k := 0 to |errorBox.messages|
      invariant errorBox.messages == old(errorBox.messages)
      invariant forall l :: 0 <= l < k ==> !SamePair(errorBox.messages[l], error)
    {
      var existing := errorBox.messages[k];
      if existing.index1 == error.index1 && existing.index2 == error.index2 {
        assert SamePair(errorBox.messages[k], error);
        return;
      }
    }
    errorBox.messages := errorBox.messages + [error];
  }

  /** send_warning_message: a scan of the warnings, then of the errors, then an append. */
  method SendWarningMessage(warning: Message, warningBox: MessageBox, errorBox: MessageBox)
    modifies warningBox
    ensures warningBox.messages == WithWarning(old(warningBox.messages), old(errorBox.messages), warning)
  {
    for k := 0 to |warningBox.messages|
      invariant forall l :: 0 <= l < k ==> !SamePair(warningBox.messages[l], warning)
    {
      var existing := warningBox.messages[k];
      if existing.index1 == warning.index1 && existing.index2 == warning.index2 {
        assert SamePair(warningBox.messages[k], warning);
        return;
      }
    }
    for k := 0 to |errorBox.messages|
      invariant forall l :: 0 <= l < k ==> !SamePair(errorBox.messages[l], warning)
    {
      var existing := errorBox.messages[k];
      if existing.index1 == warning.index1 && existing.index2 == warning.index2 {
        assert SamePair(errorBox.messages[k], warning);
        return;
      }
    }
    warningBox.messages := warningBox.messages + [warning];
  }

  // ---------------------------------------------------------------------------------
  // Properties of the boxes
  // ---------------------------------------------------------------------------------

  lemma HasPairIndexPairs(box: seq<Message>, m: Message)
    ensures HasPair(box, m) <==> IndexPair(m) in IndexPairs(box)
  {
    if IndexPair(m) in IndexPairs(box) {
      var k :| 0 <= k < |box| && IndexPair(box[k]) == IndexPair(m);
      assert SamePair(box[k], m);
    }
  }

  lemma IndexPairsAppend(box: seq<Message>, m: Message)
    ensures IndexPairs(box + [m]) == IndexPairs(box) + {IndexPair(m)}
  {
    assert IndexPair((box + [m])[|box|]) == IndexPair(m);
    forall k | 0 <= k < |box|
      ensures IndexPair((box + [m])[k]) == IndexPair(box[k])
    {
    }
  }

  /** Sending never loses a pair and adds exactly the pairs of the messages sent: every
      message sent has its pair in the box afterwards. */
  lemma {:induction false} SendAllIndexPairs(box: seq<Message>, ms: seq<Message>)
    decreases |ms|
    ensures IndexPairs(SendAll(box, ms)) == IndexPairs(box) + IndexPairs(ms)
  {
    if ms != [] {
      var front := ms[..|ms| - 1];
      var last := ms[|ms| - 1];
      assert ms == front + [last];
      SendAllIndexPairs(box, front);
      IndexPairsAppend(front, last);
      var before := SendAll(box, front);
      HasPairIndexPairs(before, last);
      if !HasPair(before, last) {
        IndexPairsAppend(before, last);
      }
    }
  }

  lemma SendAllCovers(box: seq<Message>, ms: seq<Message>, m: Message)
    requires m in ms
    ensures HasPair(SendAll(box, ms), m)
  {
    var k :| 0 <= k < |ms| && ms[k] == m;
    assert IndexPair(ms[k]) in IndexPairs(ms);
    SendAllIndexPairs(box, ms);
    HasPairIndexPairs(SendAll(box, ms), m);
  }

  lemma WithErrorNoDuplicates(box: seq<Message>, m: Message)
    requires NoDuplicatePairs(box)
    ensures NoDuplicatePairs(WithError(box, m))
  {
  }

  /** After any sequence of sends, no two errors share a pair. */
  lemma {:induction false} SendAllNoDuplicates(box: seq<Message>, ms: seq<Message>)
    requires NoDuplicatePairs(box)
    decreases |ms|
    ensures NoDuplicatePairs(SendAll(box, ms))
  {
    if ms != [] {
      SendAllNoDuplicates(box, ms[..|ms| - 1]);
      WithErrorNoDuplicates(SendAll(box, ms[..|ms| - 1]), ms[|ms| - 1]);
    }
  }

  /** Sending a batch is sending its two halves one after the other. */
  lemma {:induction false} SendAllAppend(box: seq<Message>, xs: seq<Message>, ys: seq<Message>)
    decreases |ys|
    ensures SendAll(box, xs + ys) == SendAll(SendAll(box, xs), ys)
  {
    if ys == [] {
      assert xs + ys == xs;
    } else {
      var front := ys[..|ys| - 1];
      assert (xs + ys)[..|xs + ys| - 1] == xs + front;
      assert (xs + ys)[|xs + ys| - 1] == ys[|ys| - 1];
      SendAllAppend(box, xs, front);
    }
  }

  /** Messages whose pairs are all in the box already change nothing. */
  lemma {:induction false} SendAllPresent(box: seq<Message>, ms: seq<Message>)
    requires forall m :: m in ms ==> HasPair(box, m)
    decreases |ms|
    ensures SendAll(box, ms) == box
  {
    if ms != [] {
      assert ms[|ms| - 1] in ms;
      SendAllPresent(box, ms[..|ms| - 1]);
    }
  }

  /** Resending is a no-op: a second round of the same messages leaves the box as it is. */
  lemma SendAllResend(box: seq<Message>, ms: seq<Message>)
    ensures SendAll(box, ms + ms) == SendAll(box, ms)
  {
    SendAllAppend(box, ms, ms);
    forall m | m in ms
      ensures HasPair(SendAll(box, ms), m)
    {
      SendAllCovers(box, ms, m);
    }
    SendAllPresent(SendAll(box, ms), ms);
  }

  /** A warning box that shares no pair with the error box keeps that separation, and
      keeps its own pairs distinct. */
  lemma WarningsApartFromErrors(warnings: seq<Message>, errors: seq<Message>, warning: Message)
    requires NoDuplicatePairs(warnings) && IndexPairs(warnings) !! IndexPairs(errors)
    ensures NoDuplicatePairs(WithWarning(warnings, errors, warning))
    ensures IndexPairs(WithWarning(warnings, errors, warning)) !! IndexPairs(errors)
  {
    if !HasPair(warnings, warning) && !HasPair(errors, warning) {
      IndexPairsAppend(warnings, warning);
      HasPairIndexPairs(errors, warning);
    }
  }

  // ---------------------------------------------------------------------------------
  // The scan
  // ---------------------------------------------------------------------------------

  /** What the scan reads of a sonority: its id, rest flags, rhythmic level, simple interval
      and the motion of each voice. */
  datatype SonorityView = SonorityView(
    id: int,
    note1Rest: bool,
    note2Rest: bool,
    rhythmicHierarchy: int,
    simpleInterval: Interval,
    note1Motion: Interval,
    note2Motion: Interval)

  function ViewOf(o: Sonority): SonorityView
    reads o
  {
    SonorityView(o.id, o.note1.isRest, o.note2.isRest, o.rhythmicHierarchy, o.simpleInterval,
                 o.note1Motion, o.note2Motion)
  }

  function Views(s: seq<Sonority>): (r: seq<SonorityView>)
    reads s
    ensures |r| == |s| && forall k :: 0 <= k < |s| ==> r[k] == ViewOf(s[k])
  {
    seq(|s|, k requires 0 <= k < |s| reads s => ViewOf(s[k]))
  }

  /** The message comparing sonorities a and b: fifths when both simple intervals are seven
      semitones, octaves when both are zero, nothing otherwise; fifths take precedence. */
  function ParallelMessages(kind: Between, a: SonorityView, b: SonorityView): (r: seq<Message>)
    ensures |r| <= 1
    ensures r != [] <==>
      (a.simpleInterval.1 == 7 && b.simpleInterval.1 == 7) || (a.simpleInterval.1 == 0 && b.simpleInterval.1 == 0)
    ensures r != [] ==> IndexPair(r[0]) == (a.id, b.id)
    ensures r != [] ==> r[0].description == if a.simpleInterval.1 == 7 then ParallelFifths(kind) else ParallelOctaves(kind)
  {
    if a.simpleInterval.1 == 7 && b.simpleInterval.1 == 7 then [Message(ParallelFifths(kind), a.id, b.id)]
    else if a.simpleInterval.1 == 0 && b.simpleInterval.1 == 0 then [Message(ParallelOctaves(kind), a.id, b.id)]
    else []
  }

  predicate AnyRest(a: SonorityView, b: SonorityView) {
    a.note1Rest || a.note2Rest || b.note1Rest || b.note2Rest
  }

  /** A signed int converted to a 64-bit size_t, as in a comparison with a vector's size. */
  function SizeT(x: int): (r: nat)
    ensures r < 0x1_0000_0000_0000_0000
    ensures 0 <= x < 0x1_0000_0000_0000_0000 ==> r == x
    ensures -0x1_0000_0000_0000_0000 <= x < 0 ==> r == x + 0x1_0000_0000_0000_0000
  {
    x % 0x1_0000_0000_0000_0000
  }

  /** The downbeat search starts only when the previous sonority has both voices moving and
      the current one is on a beat or stronger. */
  predicate DownbeatGate(v: seq<SonorityView>, i: nat, beatLevel: int)
    requires i < |v|
  {
    (i == 0 || (v[i - 1].note1Motion.1 != 0 && v[i - 1].note2Motion.1 != 0)) &&
    v[i].rhythmicHierarchy >= beatLevel
  }

  /** Sonority j goes on the downbeat search: inside the measure of sonority i, and with the
      level bound (compared as a size_t with no level checked yet) not reached. */
  predicate DownbeatReach(v: seq<SonorityView>, i: nat, j: nat, ticksPerMeasure: int, maxDepth: int)
    requires i < |v|
  {
    j < |v| && v[j].id - v[i].id <= ticksPerMeasure &&
    0 < SizeT(maxDepth - v[i].rhythmicHierarchy - 1)
  }

  predicate IsDownbeat(v: seq<SonorityView>, i: nat, j: nat, isConsonant: SonorityView -> bool)
    requires i < |v| && j < |v|
  {
    v[j].rhythmicHierarchy > v[i].rhythmicHierarchy && isConsonant(v[j])
  }

  /** The first consonant sonority at or after j, on a stronger level than i, that the
      search reaches; when there is none, every such sonority lies beyond a stop. */
  function DownbeatFrom(v: seq<SonorityView>, i: nat, j: nat, ticksPerMeasure: int, maxDepth: int,
                        isConsonant: SonorityView -> bool): (r: Option<nat>)
    requires i < j <= |v|
    decreases |v| - j
    ensures r.Some? ==> j <= r.value < |v| && IsDownbeat(v, i, r.value, isConsonant)
    ensures r.Some? ==> forall k :: j <= k <= r.value ==> DownbeatReach(v, i, k, ticksPerMeasure, maxDepth)
    ensures r.Some? ==> forall k :: j <= k < r.value ==> !IsDownbeat(v, i, k, isConsonant)
    ensures r.None? ==> forall k :: j <= k < |v| && IsDownbeat(v, i, k, isConsonant) ==>
      exists l :: j <= l <= k && !DownbeatReach(v, i, l, ticksPerMeasure, maxDepth)
  {
    if DownbeatReach(v, i, j, ticksPerMeasure, maxDepth) then
      if IsDownbeat(v, i, j, isConsonant) then Some(j)
      else DownbeatFrom(v, i, j + 1, ticksPerMeasure, maxDepth, isConsonant)
    else None
  }

  /** The first sonority at or after j on the same rhythmic level as i. */
  function UpbeatFrom(v: seq<SonorityView>, i: nat, j: nat): (r: Option<nat>)
    requires i < j <= |v|
    decreases |v| - j
    ensures r.Some? ==> j <= r.value < |v| && v[r.value].rhythmicHierarchy == v[i].rhythmicHierarchy
    ensures r.Some? ==> forall k :: j <= k < r.value ==> v[k].rhythmicHierarchy != v[i].rhythmicHierarchy
    ensures r.None? ==> forall k :: j <= k < |v| ==> v[k].rhythmicHierarchy != v[i].rhythmicHierarchy
  {
    if j == |v| then None
    else if v[j].rhythmicHierarchy == v[i].rhythmicHierarchy then Some(j)
    else UpbeatFrom(v, i, j + 1)
  }

  function DownbeatMessages(v: seq<SonorityView>, i: nat, ticksPerMeasure: int, maxDepth: int, beatLevel: int,
                            isConsonant: SonorityView -> bool): seq<Message>
    requires i + 1 < |v|
  {
    if DownbeatGate(v, i, beatLevel) then
      match DownbeatFrom(v, i, i + 1, ticksPerMeasure, maxDepth, isConsonant)
      case None => []
      case Some(j) => ParallelMessages(WeakBeatAndDownbeat, v[i], v[j])
    else []
  }

  function UpbeatMessages(v: seq<SonorityView>, i: nat): seq<Message>
    requires i + 1 < |v|
  {
    match UpbeatFrom(v, i, i + 1)
    case None => []
    case Some(j) => ParallelMessages(ConsecutiveUpbeats, v[i], v[j])
  }

  /** What iteration i of the scan sends: nothing when a rest is involved, otherwise the
      adjacent pair, then the first downbeat, then the first later sonority on the same
      level. Every message is about sonority i. */
  function IterationMessages(v: seq<SonorityView>, i: nat, ticksPerMeasure: int, maxDepth: int, beatLevel: int,
                             isConsonant: SonorityView -> bool): (r: seq<Message>)
    requires i + 1 < |v|
    ensures AnyRest(v[i], v[i + 1]) ==> r == []
    ensures |r| <= 3
    ensures forall m :: m in r ==> m.index1 == v[i].id
  {
    if AnyRest(v[i], v[i + 1]) then []
    else
      ParallelMessages(AdjacentNotesOrDownbeats, v[i], v[i + 1])
      + DownbeatMessages(v, i, ticksPerMeasure, maxDepth, beatLevel, isConsonant)
      + UpbeatMessages(v, i)
  }

  /** The messages of each iteration of the scan, one entry per sonority but the last. */
  function Iterations(v: seq<SonorityView>, ticksPerMeasure: int, maxDepth: int, beatLevel: int,
                      isConsonant: SonorityView -> bool): (r: seq<seq<Message>>)
    requires |v| >= 1
    ensures |r| == |v| - 1
    ensures forall i :: 0 <= i < |r| ==> r[i] == IterationMessages(v, i, ticksPerMeasure, maxDepth, beatLevel, isConsonant)
  {
    seq(|v| - 1, i requires 0 <= i < |v| - 1 =>
      IterationMessages(v, i, ticksPerMeasure, maxDepth, beatLevel, isConsonant))
  }

  /** The concatenation of the lists, in order. */
  function Flatten(xss: seq<seq<Message>>): seq<Message>
    decreases |xss|
  {
    if xss == [] then [] else Flatten(xss[..|xss| - 1]) + xss[|xss| - 1]
  }

  lemma FlattenAppend(xss: seq<seq<Message>>, xs: seq<Message>)
    ensures Flatten(xss + [xs]) == Flatten(xss) + xs
  {
    assert (xss + [xs])[..|xss|] == xss;
  }

  lemma {:induction false} FlattenIncludes(xss: seq<seq<Message>>, i: nat, m: Message)
    requires i < |xss| && m in xss[i]
    decreases |xss|
    ensures m in Flatten(xss)
  {
    if i < |xss| - 1 {
      FlattenIncludes(xss[..|xss| - 1], i, m);
    }
  }

  /** Sending the first i + 1 lists is sending the first i lists, then list i. */
  lemma SendAllStep(box: seq<Message>, xss: seq<seq<Message>>, i: nat)
    requires i < |xss|
    ensures SendAll(box, Flatten(xss[..i + 1])) == SendAll(SendAll(box, Flatten(xss[..i])), xss[i])
  {
    assert xss[..i + 1] == xss[..i] + [xss[i]];
    FlattenAppend(xss[..i], xss[i]);
    SendAllAppend(box, Flatten(xss[..i]), xss[i]);
  }

  /** Everything the scan of one sonority array sends, in order. */
  function ScanMessages(v: seq<SonorityView>, ticksPerMeasure: int, maxDepth: int, beatLevel: int,
                        isConsonant: SonorityView -> bool): (r: seq<Message>)
    requires |v| >= 1
    ensures |v| == 1 ==> r == []
    ensures forall m :: m in r ==>
      exists i :: 0 <= i < |v| - 1 && !AnyRest(v[i], v[i + 1]) && m.index1 == v[i].id
  {
    var iterations := Iterations(v, ticksPerMeasure, maxDepth, beatLevel, isConsonant);
    forall m | m in Flatten(iterations)
      ensures exists i :: 0 <= i < |v| - 1 && !AnyRest(v[i], v[i + 1]) && m.index1 == v[i].id
    {
      var i := FlattenSource(iterations, m);
    }
    Flatten(iterations)
  }

  /** A message of the concatenation comes from one of the lists. */
  lemma {:induction false} FlattenSource(xss: seq<seq<Message>>, m: Message) returns (i: nat)
    requires m in Flatten(xss)
    decreases |xss|
    ensures i < |xss| && m in xss[i]
  {
    if m in xss[|xss| - 1] {
      i := |xss| - 1;
    } else {
      i := FlattenSource(xss[..|xss| - 1], m);
    }
  }

  /** The messages of each array's scan, one entry per array. */
  function Scans(vs: seq<seq<SonorityView>>, ticksPerMeasure: int, maxDepth: int, beatLevel: int,
                 isConsonant: SonorityView -> bool): (r: seq<seq<Message>>)
    requires forall a :: 0 <= a < |vs| ==> |vs[a]| >= 1
    ensures |r| == |vs|
    ensures forall a :: 0 <= a < |vs| ==> r[a] == ScanMessages(vs[a], ticksPerMeasure, maxDepth, beatLevel, isConsonant)
  {
    seq(|vs|, a requires 0 <= a < |vs| => ScanMessages(vs[a], ticksPerMeasure, maxDepth, beatLevel, isConsonant))
  }

  // ---------------------------------------------------------------------------------
  // The scan, step by step
  // ---------------------------------------------------------------------------------

  /** The fifths-then-octaves test and send the three checks share. */
  method SendParallel(kind: Between, a: Sonority, b: Sonority, ghost va: SonorityView, ghost vb: SonorityView,
                      errorBox: MessageBox)
    requires va == ViewOf(a) && vb == ViewOf(b)
    modifies errorBox
    ensures errorBox.messages == SendAll(old(errorBox.messages), ParallelMessages(kind, va, vb))
  {
    if a.simpleInterval.1 == 7 && b.simpleInterval.1 == 7 {
      SendErrorMessage(Message(ParallelFifths(kind), a.id, b.id), errorBox);
    } else if a.simpleInterval.1 == 0 && b.simpleInterval.1 == 0 {
      SendErrorMessage(Message(ParallelOctaves(kind), a.id, b.id), errorBox);
    }
  }

  /** The downbeat search of one iteration, with its vector of rhythmic levels already checked. */
  method ScanDownbeats(s: seq<Sonority>, ghost v: seq<SonorityView>, i: nat, ticksPerMeasure: int, maxDepth: int,
                       beatLevel: int, isConsonant: SonorityView -> bool, errorBox: MessageBox)
    requires i + 1 < |s| && v == Views(s)
    modifies errorBox
    ensures errorBox.messages ==
      SendAll(old(errorBox.messages), DownbeatMessages(v, i, ticksPerMeasure, maxDepth, beatLevel, isConsonant))
  {
    var current := s[i];
    var checkedLevels: seq<int> := [];
    if (i == 0 || (s[i - 1].note1Motion.1 != 0 && s[i - 1].note2Motion.1 != 0))
       && current.rhythmicHierarchy >= beatLevel
    {
      var j := i + 1;
      while j < |s| && s[j].id - current.id <= ticksPerMeasure
            && |checkedLevels| < SizeT(maxDepth - current.rhythmicHierarchy - 1)
        invariant i + 1 <= j <= |s|
        invariant checkedLevels == []
        invariant errorBox.messages == old(errorBox.messages)
        invariant DownbeatFrom(v, i, j, ticksPerMeasure, maxDepth, isConsonant)
               == DownbeatFrom(v, i, i + 1, ticksPerMeasure, maxDepth, isConsonant)
        decreases |s| - j
      {
        var downbeat := s[j];
        assert ViewOf(downbeat) == v[j];
        if downbeat.rhythmicHierarchy > current.rhythmicHierarchy
           && downbeat.rhythmicHierarchy !in checkedLevels && isConsonant(ViewOf(downbeat))
        {
          if current.simpleInterval.1 == 7 && downbeat.simpleInterval.1 == 7 {
            SendErrorMessage(Message(ParallelFifths(WeakBeatAndDownbeat), current.id, downbeat.id), errorBox);
            checkedLevels := checkedLevels + [downbeat.rhythmicHierarchy];
          } else if current.simpleInterval.1 == 0 && downbeat.simpleInterval.1 == 0 {
            SendErrorMessage(Message(ParallelOctaves(WeakBeatAndDownbeat), current.id, downbeat.id), errorBox);
            checkedLevels := checkedLevels + [downbeat.rhythmicHierarchy];
          }
          if isConsonant(ViewOf(downbeat)) {
            break;
          }
        }
        j := j + 1;
      }
    }
  }

  /** The consecutive-upbeat check of one iteration: only the first later sonority on the
      same level is compared. */
  method ScanUpbeats(s: seq<Sonority>, ghost v: seq<SonorityView>, i: nat, errorBox: MessageBox)
    requires i + 1 < |s| && v == Views(s)
    modifies errorBox
    ensures errorBox.messages == SendAll(old(errorBox.messages), UpbeatMessages(v, i))
  {
    var current := s[i];
    var j := i + 1;
    while j < |s|
      invariant i + 1 <= j <= |s|
      invariant errorBox.messages == old(errorBox.messages)
      invariant UpbeatFrom(v, i, j) == UpbeatFrom(v, i, i + 1)
      decreases |s| - j
    {
      var nextUpbeat := s[j];
      if nextUpbeat.rhythmicHierarchy == current.rhythmicHierarchy {
        SendParallel(ConsecutiveUpbeats, current, nextUpbeat, v[i], v[j], errorBox);
        break;
      }
      j := j + 1;
    }
  }

  /** One iteration of the scan: skipped when a rest is involved, otherwise the adjacent
      check, the downbeat search and the consecutive-upbeat check, in that order. */
  method CheckIteration(s: seq<Sonority>, ghost v: seq<SonorityView>, i: nat, ticksPerMeasure: int, maxDepth: int,
                        beatLevel: int, isConsonant: SonorityView -> bool, errorBox: MessageBox)
    requires i + 1 < |s| && v == Views(s)
    modifies errorBox
    ensures unchanged(s)
    ensures errorBox.messages ==
      SendAll(old(errorBox.messages), IterationMessages(v, i, ticksPerMeasure, maxDepth, beatLevel, isConsonant))
  {
    var current := s[i];
    var next := s[i + 1];
    if current.note1.isRest || current.note2.isRest || next.note1.isRest || next.note2.isRest {
      return;
    }
    ghost var adjacent := ParallelMessages(AdjacentNotesOrDownbeats, v[i], v[i + 1]);
    ghost var downbeats := DownbeatMessages(v, i, ticksPerMeasure, maxDepth, beatLevel, isConsonant);
    SendParallel(AdjacentNotesOrDownbeats, current, next, v[i], v[i + 1], errorBox);
    ScanDownbeats(s, v, i, ticksPerMeasure, maxDepth, beatLevel, isConsonant, errorBox);
    ScanUpbeats(s, v, i, errorBox);
    SendAllAppend(old(errorBox.messages), adjacent, downbeats);
    SendAllAppend(old(errorBox.messages), adjacent + downbeats, UpbeatMessages(v, i));
  }

  /** check_voice_independence: every sonority but the last starts an iteration, and each
      iteration sends its messages into the error box in order. The warning box is not
      written. */
  method CheckVoiceIndependence(s: seq<Sonority>, errorBox: MessageBox, warningBox: MessageBox,
                                ticksPerMeasure: int, maxDepth: int, beatLevel: int,
                                isConsonant: SonorityView -> bool)
    requires |s| >= 1
    modifies errorBox
    ensures unchanged(s)
    ensures errorBox.messages ==
      SendAll(old(errorBox.messages), ScanMessages(Views(s), ticksPerMeasure, maxDepth, beatLevel, isConsonant))
  {
    ghost var v := Views(s);
    ghost var iterations := Iterations(v, ticksPerMeasure, maxDepth, beatLevel, isConsonant);
    var i := 0;
    while i < |s| - 1
      invariant 0 <= i <= |s| - 1
      invariant unchanged(s)
      invariant errorBox.messages == SendAll(old(errorBox.messages), Flatten(iterations[..i]))
    {
      SendAllStep(old(errorBox.messages), iterations, i);
      CheckIteration(s, v, i, ticksPerMeasure, maxDepth, beatLevel, isConsonant, errorBox);
      i := i + 1;
    }
    assert iterations[..i] == iterations;
  }

  /** The views of every array's sonorities. */
  function AllViews(arrays: seq<seq<Sonority>>): (r: seq<seq<SonorityView>>)
    reads set a, k | 0 <= a < |arrays| && 0 <= k < |arrays[a]| :: arrays[a][k]
    ensures |r| == |arrays| && forall a :: 0 <= a < |arrays| ==> r[a] == Views(arrays[a])
  {
    seq(|arrays|, a requires 0 <= a < |arrays|
                    reads set b, k | 0 <= b < |arrays| && 0 <= k < |arrays[b]| :: arrays[b][k] =>
      Views(arrays[a]))
  }

  /** check_counterpoint: one scan per sonority array, all into the same two boxes, so a
      pair reported from one array is not reported again from another. */
  method CheckCounterpoint(arrays: seq<seq<Sonority>>, ticksPerMeasure: int, maxDepth: int, beatLevel: int,
                           isConsonant: SonorityView -> bool)
    returns (errorMessages: seq<Message>, warningMessages: seq<Message>)
    requires forall a :: 0 <= a < |arrays| ==> |arrays[a]| >= 1
    ensures errorMessages ==
      SendAll([], Flatten(Scans(AllViews(arrays), ticksPerMeasure, maxDepth, beatLevel, isConsonant)))
    ensures NoDuplicatePairs(errorMessages)
    ensures warningMessages == []
  {
    ghost var views := AllViews(arrays);
    ghost var scans := Scans(views, ticksPerMeasure, maxDepth, beatLevel, isConsonant);
    var errorBox := new MessageBox();
    var warningBox := new MessageBox();
    for a := 0 to |arrays|
      invariant forall b :: 0 <= b < |arrays| ==> Views(arrays[b]) == views[b]
      invariant errorBox.messages == SendAll([], Flatten(scans[..a]))
      invariant warningBox.messages == []
    {
      SendAllStep([], scans, a);
      CheckVoiceIndependence(arrays[a], errorBox, warningBox, ticksPerMeasure, maxDepth, beatLevel, isConsonant);
    }
    assert scans[..|arrays|] == scans;
    assert views == AllViews(arrays);
    errorMessages, warningMessages := errorBox.messages, warningBox.messages;
    SendAllNoDuplicates([], Flatten(scans));
  }

  // ---------------------------------------------------------------------------------
  // What the scan reports
  // ---------------------------------------------------------------------------------

  /** Adjacent sonorities without rests, both a fifth or both an octave in semitones, end up
      reported as their pair of ids, whatever the box held before. */
  lemma AdjacentParallelsReported(v: seq<SonorityView>, i: nat, box: seq<Message>, ticksPerMeasure: int,
                                  maxDepth: int, beatLevel: int, isConsonant: SonorityView -> bool)
    requires i + 1 < |v| && !AnyRest(v[i], v[i + 1])
    requires (v[i].simpleInterval.1 == 7 && v[i + 1].simpleInterval.1 == 7) ||
             (v[i].simpleInterval.1 == 0 && v[i + 1].simpleInterval.1 == 0)
    ensures (v[i].id, v[i + 1].id) in
      IndexPairs(SendAll(box, ScanMessages(v, ticksPerMeasure, maxDepth, beatLevel, isConsonant)))
  {
    var m := ParallelMessages(AdjacentNotesOrDownbeats, v[i], v[i + 1])[0];
    var iterations := Iterations(v, ticksPerMeasure, maxDepth, beatLevel, isConsonant);
    assert iterations[i][0] == m;
    FlattenIncludes(iterations, i, m);
    var scan := ScanMessages(v, ticksPerMeasure, maxDepth, beatLevel, isConsonant);
    SendAllCovers(box, scan, m);
    HasPairIndexPairs(SendAll(box, scan), m);
  }

  /** The upbeat check speaks only of the first later sonority on the same level. */
  lemma UpbeatFirstOnly(v: seq<SonorityView>, i: nat, m: Message)
    requires i + 1 < |v| && m in UpbeatMessages(v, i)
    ensures exists j :: (i < j < |v| && m.index2 == v[j].id &&
      v[j].rhythmicHierarchy == v[i].rhythmicHierarchy &&
      forall k :: i < k < j ==> v[k].rhythmicHierarchy != v[i].rhythmicHierarchy)
  {
    var j := UpbeatFrom(v, i, i + 1).value;
    assert m.index2 == v[j].id;
  }
}
