/** What the flush protocol loses: when nothing, where a single entry can be, and runs that show the losses. */
module FlushLosses {
  import opened Common
  import opened Strings
  import opened SegmentQueue
  import opened FlushProtocol

  // ---- When nothing is lost ----

  /** The last line is unfinished after these steps. */
  predicate TornAfter<T(!new)>(steps: seq<Step<T>>, codec: Codec<T>) {
    if steps == [] then false
    else
      match steps[|steps| - 1]
      case Push(e, io) => if Taken(codec.encode(e), io) == [] then TornAfter(steps[..|steps| - 1], codec) else !io.Written?
      case Clear => false
      case _ => TornAfter(steps[..|steps| - 1], codec)
  }

  /** Since the last read, with only pushes and sent frames in between, something was tried. */
  predicate TriedSinceRead<T>(steps: seq<Step<T>>) {
    if steps == [] then false
    else
      match steps[|steps| - 1]
      case Push(_, _) => true
      case Accept => TriedSinceRead(steps[..|steps| - 1])
      case _ => false
  }

  /** The step loses something: it clears the file although something was tried since the read, or it is a push of
      which not every byte but the line feed arrives, or one behind an unfinished line. */
  predicate Loses<T(!new)>(before: seq<Step<T>>, step: Step<T>, codec: Codec<T>) {
    || (step.Clear? && TriedSinceRead(before))
    || (step.Push? && (Taken(codec.encode(step.entry), step.io) != codec.encode(step.entry) || TornAfter(before, codec)))
  }

  /** No step of the run loses anything, given the steps before it. */
  predicate NeverLoses<T(!new)>(steps: seq<Step<T>>, codec: Codec<T>) {
    forall k | 0 <= k < |steps| :: !Loses(steps[..k], steps[k], codec)
  }

  lemma NeverLosesSnoc<T(!new)>(steps: seq<Step<T>>, codec: Codec<T>)
    requires steps != []
    ensures NeverLoses(steps, codec) <==>
            NeverLoses(steps[..|steps| - 1], codec) && !Loses(steps[..|steps| - 1], steps[|steps| - 1], codec)
  {
    var n := |steps| - 1;
    var init := steps[..n];
    assert forall k | 0 <= k < n :: init[..k] == steps[..k] && init[k] == steps[k];
  }

  predicate NoneGone<T>(lines: seq<Line<T>>) {
    forall i | 0 <= i < |lines| :: lines[i].mark != Gone
  }

  ghost predicate RoundsWhole<T>(rounds: seq<Round<T>>) {
    forall r | r in rounds :: r.window == [] && NoneGone(r.lines)
  }

  ghost predicate Whole<T>(s: State<T>) {
    NoneGone(s.lines) && RoundsWhole(s.rounds)
  }

  lemma {:induction false} ReadableLength<T>(lines: seq<Line<T>>)
    ensures |Readable(lines)| <= |Entries(lines)|
    ensures |Readable(lines)| == |Entries(lines)| <==> NoneGone(lines)
  {
    if lines != [] {
      ReadableLength(lines[..|lines| - 1]);
    }
  }

  lemma {:induction false} ReadableWhole<T>(lines: seq<Line<T>>)
    requires NoneGone(lines) && OpenLast(lines)
    ensures Readable(lines) == Entries(lines)
    ensures lines != [] && lines[|lines| - 1].mark == Kept ==> Pick(lines, Open) == []
  {
    if lines != [] {
      var init, last := lines[..|lines| - 1], lines[|lines| - 1];
      ReadableWhole(init);
      assert init != [] ==> init[|init| - 1].mark == Kept;
      Assoc(Pick(init, Kept), Pick(init, Open), [last.entry]);
    }
  }

  lemma {:induction false} SentLength<T>(rounds: seq<Round<T>>)
    requires forall r | r in rounds :: r.batch == Readable(r.lines) && OpenLast(r.lines)
    ensures |Sent(rounds)| <= |Settled(rounds)|
    ensures |Sent(rounds)| == |Settled(rounds)| <==> RoundsWhole(rounds)
    ensures RoundsWhole(rounds) ==> Sent(rounds) == Settled(rounds)
    decreases |rounds|
  {
    if rounds != [] {
      var init, r := rounds[..|rounds| - 1], rounds[|rounds| - 1];
      assert r in rounds;
      SentLength(init);
      ReadableLength(r.lines);
      RoundsWholeSnoc(rounds);
      if NoneGone(r.lines) {
        ReadableWhole(r.lines);
      }
      if RoundsWhole(rounds) {
        assert Settled(rounds) == Settled(init) + Entries(r.lines) + [];
      }
    }
  }

  lemma RoundsWholeSnoc<T>(rounds: seq<Round<T>>)
    requires rounds != []
    ensures RoundsWhole(rounds) <==>
            RoundsWhole(rounds[..|rounds| - 1]) && rounds[|rounds| - 1].window == [] && NoneGone(rounds[|rounds| - 1].lines)
  {
    assert rounds == rounds[..|rounds| - 1] + [rounds[|rounds| - 1]];
  }

  lemma GoneStays<T(!new)>(content: seq<byte>, lines: seq<Line<T>>, e: T, codec: Codec<T>, io: Io)
    requires !NoneGone(lines)
    ensures !NoneGone(Booked(lines, content, e, codec, io))
  {
    SpoiltMarks(lines, true);
    SpoiltMarks(lines, false);
    var i :| 0 <= i < |lines| && lines[i].mark == Gone;
    assert Booked(lines, content, e, codec, io)[i].mark == Gone;
  }

  lemma LastGone<T(!new)>(content: seq<byte>, lines: seq<Line<T>>, e: T, codec: Codec<T>, io: Io)
    requires Taken(codec.encode(e), io) != codec.encode(e) || Fragment(content) != []
    requires codec.Faithful()
    ensures !NoneGone(Booked(lines, content, e, codec, io))
  {
    var booked := Booked(lines, content, e, codec, io);
    assert booked[|booked| - 1].mark == Gone;
  }

  lemma BookedWhole<T(!new)>(content: seq<byte>, lines: seq<Line<T>>, e: T, codec: Codec<T>, io: Io)
    requires codec.Faithful() && FileInv(content, lines, codec)
    ensures NoneGone(Booked(lines, content, e, codec, io)) <==>
            NoneGone(lines) && Taken(codec.encode(e), io) == codec.encode(e) && Fragment(content) == []
  {
    if !NoneGone(lines) {
      GoneStays(content, lines, e, codec, io);
    } else if Taken(codec.encode(e), io) != codec.encode(e) || Fragment(content) != [] {
      LastGone(content, lines, e, codec, io);
    } else {
      assert lines != [] ==> lines[0].mark != Gone;
      ValidAfterIff(content, e, codec, io);
    }
  }

  lemma WholeStep<T(!new)>(s: State<T>, step: Step<T>, codec: Codec<T>)
    requires codec.Faithful() && Inv(s, codec) && Enabled(s, step)
    ensures Whole(Do(s, step, codec)) <==>
            && Whole(s) && !(step.Clear? && s.phase.window != [])
            && !(step.Push? && (Taken(codec.encode(step.entry), step.io) != codec.encode(step.entry) || Fragment(s.content) != []))
  {
    if step.Push? {
      BookedWhole(s.content, s.lines, step.entry, codec, step.io);
    } else if step.Clear? {
      var r := Round(s.phase.batch, s.phase.lines, s.phase.window, s.phase.at);
      assert r in s.rounds + [r];
      assert RoundsWhole(s.rounds + [r]) <==> RoundsWhole(s.rounds) && r.window == [] && NoneGone(r.lines);
    }
  }

  lemma {:induction false} RunTracks<T(!new)>(steps: seq<Step<T>>, codec: Codec<T>)
    requires codec.Faithful() && Runs(steps, codec)
    ensures Fragment(Exec(steps, codec).content) != [] <==> TornAfter(steps, codec)
    ensures Exec(steps, codec).phase.Flushing? ==> (Exec(steps, codec).phase.window != [] <==> TriedSinceRead(steps))
    decreases |steps|
  {
    if steps == [] {
      assert HeadEnd([]) == 0;
    } else {
      var init, step := steps[..|steps| - 1], steps[|steps| - 1];
      RunTracks(init, codec);
      if step.Push? {
        TextTaken(step.entry, codec, step.io);
        AfterAppend(Exec(init, codec).content, Taken(codec.encode(step.entry), step.io), step.io.Written?);
      }
    }
  }

  lemma {:induction false} RunWhole<T(!new)>(steps: seq<Step<T>>, codec: Codec<T>)
    requires codec.Faithful() && codec.OneObject() && Runs(steps, codec)
    ensures Whole(Exec(steps, codec)) <==> NeverLoses(steps, codec)
    decreases |steps|
  {
    if steps != [] {
      var init, step := steps[..|steps| - 1], steps[|steps| - 1];
      RunWhole(init, codec);
      RunInv(init, codec);
      RunTracks(init, codec);
      WholeStep(Exec(init, codec), step, codec);
      NeverLosesSnoc(steps, codec);
    }
  }

  /** Nothing is lost exactly if no step of the run loses something: no push between a read and the clear of the same
      flush, none that stops short of its last byte, none behind an unfinished line. */
  lemma LosslessIff<T(!new)>(steps: seq<Step<T>>, codec: Codec<T>)
    requires codec.Faithful() && codec.OneObject() && Runs(steps, codec)
    ensures Attempts(steps) == Sent(Exec(steps, codec).rounds) + Read(Exec(steps, codec).content, codec)
       <==> NeverLoses(steps, codec)
  {
    var t := Exec(steps, codec);
    Conservation(steps, codec);
    RunInv(steps, codec);
    RunWhole(steps, codec);
    SentLength(t.rounds);
    ReadableLength(t.lines);
    if Attempts(steps) == Sent(t.rounds) + Readable(t.lines) {
      assert |Settled(t.rounds)| + |Entries(t.lines)| == |Sent(t.rounds)| + |Readable(t.lines)|;
    }
    if NoneGone(t.lines) {
      ReadableWhole(t.lines);
    }
  }

  // ---- One entry ----

  lemma {:induction false} PickedOrGone<T>(lines: seq<Line<T>>, e: T)
    ensures e in Entries(lines) <==> e in Readable(lines) || Line(e, Gone) in lines
  {
    if lines != [] {
      var init, last := lines[..|lines| - 1], lines[|lines| - 1];
      PickedOrGone(init, e);
      assert lines == init + [last];
    }
  }

  lemma {:induction false} SettledHas<T>(rounds: seq<Round<T>>, e: T)
    requires e in Settled(rounds)
    ensures exists r :: r in rounds && (e in Entries(r.lines) || e in r.window)
    decreases |rounds|
  {
    var init, r := rounds[..|rounds| - 1], rounds[|rounds| - 1];
    if e in Settled(init) {
      SettledHas(init, e);
      var x :| x in init && (e in Entries(x.lines) || e in x.window);
      assert x in rounds;
    } else {
      assert r in rounds;
    }
  }

  lemma {:induction false} AttemptsHave<T>(steps: seq<Step<T>>, i: nat)
    requires i < |steps| && steps[i].Push?
    ensures steps[i].entry in Attempts(steps)
    decreases |steps|
  {
    if i < |steps| - 1 {
      AttemptsHave(steps[..|steps| - 1], i);
    }
  }

  /** A completed flush sent the entry. */
  ghost predicate WentOut<T>(s: State<T>, e: T) {
    e in s.sink && exists r :: r in s.rounds && e in r.batch
  }

  /** The entry fell in the window of a completed flush. */
  ghost predicate FellInWindow<T>(s: State<T>, e: T) {
    exists r :: r in s.rounds && e in r.window
  }

  /** No reader finds the entry where it was tried: it was cut short, stands on an unfinished line with others, or
      the file is not UTF-8. */
  ghost predicate WasSpoilt<T>(s: State<T>, e: T) {
    Line(e, Gone) in s.lines || exists r :: r in s.rounds && Line(e, Gone) in r.lines
  }

  lemma PieceInSink<T>(sink: seq<T>, r: Round<T>, e: T)
    requires InOnePiece(sink, r) && e in r.batch
    ensures e in sink
  {
    assert e in sink[r.at..r.at + |r.batch|];
  }

  lemma SettledAccounted<T>(t: State<T>, e: T)
    requires e in Settled(t.rounds) && forall r | r in t.rounds :: r.batch == Readable(r.lines) && InOnePiece(t.sink, r)
    ensures WentOut(t, e) || FellInWindow(t, e) || WasSpoilt(t, e)
  {
    SettledHas(t.rounds, e);
    var r :| r in t.rounds && (e in Entries(r.lines) || e in r.window);
    PickedOrGone(r.lines, e);
    if e in r.batch {
      PieceInSink(t.sink, r, e);
    }
  }

  /** Each attempted entry can be read from the file, went out in a completed batch, fell in a window, or was spoilt. */
  lemma EntryAccounted<T(!new)>(steps: seq<Step<T>>, i: nat, codec: Codec<T>)
    requires codec.Faithful() && codec.OneObject() && Runs(steps, codec) && i < |steps| && steps[i].Push?
    ensures var t, e := Exec(steps, codec), steps[i].entry;
            e in Read(t.content, codec) || WentOut(t, e) || FellInWindow(t, e) || WasSpoilt(t, e)
  {
    var t, e := Exec(steps, codec), steps[i].entry;
    Conservation(steps, codec);
    AttemptsHave(steps, i);
    PickedOrGone(t.lines, e);
    if e in Settled(t.rounds) {
      SettledAccounted(t, e);
    }
  }

  /** Nothing is sent that was not pushed. */
  lemma {:induction false} SentWasPushed<T(!new)>(steps: seq<Step<T>>, codec: Codec<T>)
    requires codec.Faithful() && codec.OneObject() && Runs(steps, codec)
    ensures forall e | e in Exec(steps, codec).sink :: e in Attempts(steps)
    decreases |steps|
  {
    if steps != [] {
      var init, step := steps[..|steps| - 1], steps[|steps| - 1];
      SentWasPushed(init, codec);
      RunInv(init, codec);
      if step.Accept? {
        var phase := Exec(init, codec).phase;
        PickedOrGone(phase.lines, phase.batch[phase.sent]);
        assert phase.batch[phase.sent] in Entries(Exec(init, codec).lines);
      }
    }
  }

  // ---- The losses are real ----

  lemma RunsSnoc<T(!new)>(steps: seq<Step<T>>, step: Step<T>, codec: Codec<T>)
    requires Runs(steps, codec) && Enabled(Exec(steps, codec), step)
    ensures Runs(steps + [step], codec) && Exec(steps + [step], codec) == Do(Exec(steps, codec), step, codec)
  {
    assert (steps + [step])[..|steps|] == steps;
  }

  /** An entry pushed inside the window is neither on the file nor sent, whatever the codec. */
  lemma WindowPushIsLost<T(!new)>(first: T, second: T, codec: Codec<T>) returns (steps: seq<Step<T>>)
    requires codec.Faithful() && first != second
    ensures Runs(steps, codec) && Push(second, Written) in steps
    ensures var t := Exec(steps, codec); t.phase.Idle? && t.content == [] && second !in t.sink
  {
    var push: Step<T>, late: Step<T> := Push(first, Written), Push(second, Written);
    assert Runs<T>([], codec) && Exec<T>([], codec) == Init();
    RunsSnoc([], push, codec);
    var a := [] + [push];
    EmptyFile(codec);
    PushSurvivesIff([], first, codec);
    assert Read([], codec) == [];
    RunsSnoc(a, Scan, codec);
    var b := a + [Scan];
    RunsSnoc(b, Accept, codec);
    var c := b + [Accept];
    RunsSnoc(c, late, codec);
    var d := c + [late];
    RunsSnoc(d, Clear, codec);
    steps := d + [Clear];
    assert d[|c|] == late && d[|c|] in d;
  }

  /** A flush is under way from a read that found something until it has cleared, or a failure or a restart ends it. */
  lemma FlushingAfter<T(!new)>(s: State<T>, step: Step<T>, codec: Codec<T>)
    requires Enabled(s, step)
    ensures Do(s, step, codec).phase.Flushing? <==>
            (step.Scan? && Read(s.content, codec) != []) || (s.phase.Flushing? && (step.Push? || step.Accept?))
  {
  }
}
