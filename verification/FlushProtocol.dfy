/**
 * The recorder task and the WebSocket task sharing the queue file. The recorder pushes at any moment, and a push
 * may stop after any byte; the flush reads the file, sends entry by entry and then removes the file. Each file
 * operation is one step, the flush as a whole is not. The file is its bytes, read as `SegmentQueue.Read` says.
 */
module FlushProtocol {
  import opened Common
  import opened Strings
  import opened Utf8
  import opened SegmentQueue

  /** A reader finds the entry on a finished line, or on the unfinished last one, or not at all. */
  datatype Mark = Kept | Open | Gone

  /** One attempt to push since the file was last removed. */
  datatype Line<T> = Line(entry: T, mark: Mark)

  /** A flush between its read and its clear: what it read, from which attempts, how many it has sent, where its
      first frame went in the sink, and the attempts since the read. */
  datatype Phase<T> = Idle | Flushing(batch: seq<T>, lines: seq<Line<T>>, sent: nat, window: seq<T>, at: nat)

  /** A flush that sent its whole batch and removed the file. */
  datatype Round<T> = Round(batch: seq<T>, lines: seq<Line<T>>, window: seq<T>, at: nat)

  /** `lines` keeps the books on the attempts that are on the file; nothing in the code reads it. */
  datatype State<T> = State(content: seq<byte>, lines: seq<Line<T>>, sink: seq<T>, phase: Phase<T>, rounds: seq<Round<T>>)

  datatype Step<T> =
    | Push(entry: T, io: Io)
    | Scan           // the flush reads the file
    | Accept         // the sink takes the next entry
    | SendFails      // the link breaks: the flush stops and clears nothing
    | Clear          // all sent: the file is removed
    | ClearFails     // all sent, but removing the file failed
    | Crash          // the node process restarts; the file survives

  function Entries<T>(lines: seq<Line<T>>): seq<T> {
    if lines == [] then [] else Entries(lines[..|lines| - 1]) + [lines[|lines| - 1].entry]
  }

  function Pick<T>(lines: seq<Line<T>>, mark: Mark): seq<T> {
    if lines == [] then []
    else
      var last := lines[|lines| - 1];
      Pick(lines[..|lines| - 1], mark) + (if last.mark == mark then [last.entry] else [])
  }

  function Readable<T>(lines: seq<Line<T>>): seq<T> {
    Pick(lines, Kept) + Pick(lines, Open)
  }

  /** The lines with the unfinished one, or all, made unreadable. */
  function Spoilt<T>(lines: seq<Line<T>>, all: bool): seq<Line<T>> {
    if lines == [] then []
    else
      var last := lines[|lines| - 1];
      Spoilt(lines[..|lines| - 1], all) + [if all || last.mark == Open then last.(mark := Gone) else last]
  }

  /** What one more attempt does to the lines before it: behind an unfinished line it spoils that one, and when it
      ends inside a character it spoils all. */
  function Left<T(!new)>(lines: seq<Line<T>>, content: seq<byte>, e: T, codec: Codec<T>, io: Io): seq<Line<T>> {
    if Taken(codec.encode(e), io) == [] then lines
    else if !Valid(Appended(content, e, codec, io)) then Spoilt(lines, true)
    else if Fragment(content) != [] then Spoilt(lines, false)
    else lines
  }

  /** And how it stands itself. */
  function MarkOf<T(!new)>(content: seq<byte>, e: T, codec: Codec<T>, io: Io): Mark {
    if Taken(codec.encode(e), io) == [] || !Valid(Appended(content, e, codec, io)) || Fragment(content) != [] then Gone
    else if io.Written? then Kept
    else if Taken(codec.encode(e), io) == codec.encode(e) then Open
    else Gone
  }

  function Booked<T(!new)>(lines: seq<Line<T>>, content: seq<byte>, e: T, codec: Codec<T>, io: Io): seq<Line<T>> {
    Left(lines, content, e, codec, io) + [Line(e, MarkOf(content, e, codec, io))]
  }

  function Init<T>(): State<T> {
    State([], [], [], Idle, [])
  }

  predicate Enabled<T>(s: State<T>, step: Step<T>) {
    match step
    case Push(_, _) => true
    case Scan => s.phase.Idle?
    case Accept => s.phase.Flushing? && s.phase.sent < |s.phase.batch|
    case SendFails => s.phase.Flushing? && s.phase.sent < |s.phase.batch|
    case Clear => s.phase.Flushing? && s.phase.sent == |s.phase.batch|
    case ClearFails => s.phase.Flushing? && s.phase.sent == |s.phase.batch|
    case Crash => true
  }

  function Seen<T>(phase: Phase<T>, e: T): Phase<T> {
    if phase.Flushing? then phase.(window := phase.window + [e]) else Idle
  }

  function Do<T(!new)>(s: State<T>, step: Step<T>, codec: Codec<T>): State<T>
    requires Enabled(s, step)
  {
    match step
    case Push(e, io) =>
      s.(content := Appended(s.content, e, codec, io), lines := Booked(s.lines, s.content, e, codec, io),
         phase := Seen(s.phase, e))
    case Scan =>
      var batch := Read(s.content, codec);
      if batch == [] then s else s.(phase := Flushing(batch, s.lines, 0, [], |s.sink|))
    case Accept => s.(sink := s.sink + [s.phase.batch[s.phase.sent]], phase := s.phase.(sent := s.phase.sent + 1))
    case SendFails => s.(phase := Idle)
    case Clear =>
      s.(content := [], lines := [], phase := Idle,
         rounds := s.rounds + [Round(s.phase.batch, s.phase.lines, s.phase.window, s.phase.at)])
    case ClearFails => s.(phase := Idle)
    case Crash => s.(phase := Idle)
  }

  /** A run from the empty queue. */
  predicate Runs<T(!new)>(steps: seq<Step<T>>, codec: Codec<T>)
    decreases |steps|, 0
  {
    steps == [] || (Runs(steps[..|steps| - 1], codec) && Enabled(Exec(steps[..|steps| - 1], codec), steps[|steps| - 1]))
  }

  function Exec<T(!new)>(steps: seq<Step<T>>, codec: Codec<T>): State<T>
    requires Runs(steps, codec)
    decreases |steps|, 1
  {
    if steps == [] then Init() else Do(Exec(steps[..|steps| - 1], codec), steps[|steps| - 1], codec)
  }

  /** Everything the run tried to push, in order. */
  function Attempts<T>(steps: seq<Step<T>>): seq<T> {
    if steps == [] then []
    else
      var step := steps[|steps| - 1];
      Attempts(steps[..|steps| - 1]) + (if step.Push? then [step.entry] else [])
  }

  /** The attempts completed flushes have cleared, those they read each followed by those in the window. */
  function Settled<T>(rounds: seq<Round<T>>): seq<T> {
    if rounds == [] then []
    else
      var r := rounds[|rounds| - 1];
      Settled(rounds[..|rounds| - 1]) + Entries(r.lines) + r.window
  }

  /** What completed flushes have sent. */
  function Sent<T>(rounds: seq<Round<T>>): seq<T> {
    if rounds == [] then [] else Sent(rounds[..|rounds| - 1]) + rounds[|rounds| - 1].batch
  }

  // ---- The books agree with the bytes ----

  lemma Snoc<T>(lines: seq<Line<T>>, line: Line<T>, mark: Mark)
    ensures Entries(lines + [line]) == Entries(lines) + [line.entry]
    ensures Pick(lines + [line], mark) == Pick(lines, mark) + (if line.mark == mark then [line.entry] else [])
  {
    assert (lines + [line])[..|lines|] == lines;
  }

  lemma {:induction false} SpoiltPick<T>(lines: seq<Line<T>>, all: bool)
    ensures |Spoilt(lines, all)| == |lines| && Entries(Spoilt(lines, all)) == Entries(lines)
    ensures Pick(Spoilt(lines, all), Open) == []
    ensures Pick(Spoilt(lines, all), Kept) == if all then [] else Pick(lines, Kept)
  {
    if lines != [] {
      var init, last := lines[..|lines| - 1], lines[|lines| - 1];
      SpoiltPick(init, all);
      var line := if all || last.mark == Open then last.(mark := Gone) else last;
      Snoc(Spoilt(init, all), line, Open);
      Snoc(Spoilt(init, all), line, Kept);
    }
  }

  lemma {:induction false} SpoiltMarks<T>(lines: seq<Line<T>>, all: bool)
    ensures |Spoilt(lines, all)| == |lines|
    ensures forall i | 0 <= i < |lines| ::
              Spoilt(lines, all)[i].mark == if all || lines[i].mark == Open then Gone else lines[i].mark
  {
    if lines != [] {
      SpoiltMarks(lines[..|lines| - 1], all);
    }
  }

  /** Behind an unfinished readable line nothing is readable. */
  predicate OpenLast<T>(lines: seq<Line<T>>) {
    forall i, j | 0 <= i < j < |lines| && lines[i].mark == Open :: lines[j].mark == Gone
  }

  /** The books tell what a reader finds, line by line, and where the last line stands. */
  ghost predicate FileInv<T(!new)>(content: seq<byte>, lines: seq<Line<T>>, codec: Codec<T>) {
    && OpenLast(lines)
    && (if Valid(content) then
          && EntriesOf(Head(content), codec) == Pick(lines, Kept)
          && Decoded(LastLine(Fragment(content), false), codec) == Pick(lines, Open)
          && (Fragment(content) != [] ==> codec.Begun(Fragment(content)))
        else
          lines != [] && forall i | 0 <= i < |lines| :: lines[i].mark == Gone)
  }

  lemma {:induction false} AllGone<T>(lines: seq<Line<T>>)
    requires forall i | 0 <= i < |lines| :: lines[i].mark == Gone
    ensures Readable(lines) == []
  {
    if lines != [] {
      AllGone(lines[..|lines| - 1]);
    }
  }

  /** What a reader finds is what the books call readable. */
  lemma ReadIsReadable<T(!new)>(content: seq<byte>, lines: seq<Line<T>>, codec: Codec<T>)
    requires FileInv(content, lines, codec)
    ensures Read(content, codec) == Readable(lines)
  {
    if Valid(content) {
      assert content + [] + End(false) == content;
      AppendedEntries(content, [], false, codec);
      assert Fragment(content) + [] == Fragment(content);
    } else {
      AllGone(lines);
    }
  }

  lemma NothingWritten<T(!new)>(content: seq<byte>, lines: seq<Line<T>>, e: T, codec: Codec<T>, io: Io)
    requires codec.Faithful() && FileInv(content, lines, codec) && Taken(codec.encode(e), io) == []
    ensures Appended(content, e, codec, io) == content
    ensures FileInv(content, lines + [Line(e, Gone)], codec)
  {
    assert content + [] + [] == content;
    Snoc(lines, Line(e, Gone), Kept);
    Snoc(lines, Line(e, Gone), Open);
  }

  /** What a write behind a torn line makes of the file: the line stays unreadable, finished or not. */
  lemma BehindContent<T(!new)>(content: seq<byte>, e: T, codec: Codec<T>, io: Io)
    requires codec.Faithful() && codec.OneObject() && codec.Begun(Fragment(content)) && Taken(codec.encode(e), io) != []
    ensures var after := Appended(content, e, codec, io);
            && EntriesOf(Head(after), codec) == EntriesOf(Head(content), codec)
            && Decoded(LastLine(Fragment(after), false), codec) == []
            && (Fragment(after) != [] ==> codec.Begun(Fragment(after)))
  {
    var text := Taken(codec.encode(e), io);
    var line := Fragment(content) + text;
    TextTaken(e, codec, io);
    assert codec.decode(line).None?;
    assert line[|line| - 1] == text[|text| - 1];
    GrownBegun(Fragment(content), text, codec);
    AppendedEntries(content, text, io.Written?, codec);
    AfterAppend(content, text, io.Written?);
    DecodedOne(line, codec);
  }

  lemma WrittenBehind<T(!new)>(content: seq<byte>, lines: seq<Line<T>>, e: T, codec: Codec<T>, io: Io)
    requires codec.Faithful() && codec.OneObject() && FileInv(content, lines, codec)
    requires Taken(codec.encode(e), io) != [] && Valid(Appended(content, e, codec, io)) && Fragment(content) != []
    ensures FileInv(Appended(content, e, codec, io), Spoilt(lines, false) + [Line(e, Gone)], codec)
  {
    ValidAfterIff(content, e, codec, io);
    BehindContent(content, e, codec, io);
    SpoiltPick(lines, false);
    SpoiltMarks(lines, false);
    Snoc(Spoilt(lines, false), Line(e, Gone), Kept);
    Snoc(Spoilt(lines, false), Line(e, Gone), Open);
  }

  lemma TextTaken<T(!new)>(e: T, codec: Codec<T>, io: Io)
    requires codec.Faithful()
    ensures var text, line := Taken(codec.encode(e), io), codec.encode(e);
            && LF !in text && CR !in text && |text| <= |line| && text == line[..|text|]
            && (text != [] ==> text[|text| - 1] != CR)
  {
    var text, line := Taken(codec.encode(e), io), codec.encode(e);
    assert line[..|line|] == line;
    assert forall i | 0 <= i < |text| :: text[i] == line[i] && line[i] in line;
  }

  lemma GrownBegun<T(!new)>(f: seq<byte>, text: seq<byte>, codec: Codec<T>)
    requires codec.Begun(f)
    ensures codec.Begun(f + text)
  {
    var y: T, m: nat :| 1 <= m <= |codec.encode(y)| && codec.encode(y)[..m] <= f;
    assert codec.encode(y)[..m] <= f + text;
  }

  /** Where the last line stands after an append. */
  lemma AfterAppend(content: seq<byte>, text: seq<byte>, complete: bool)
    requires LF !in text
    ensures var after := content + text + End(complete);
            if complete then Head(after) == after && Fragment(after) == []
            else Head(after) == Head(content) && Fragment(after) == Fragment(content) + text
  {
    TerminatedHead(content);
    var line := Fragment(content) + text;
    Assoc(Head(content), Fragment(content), text);
    if complete {
      TerminatedHead(content + text + [LF]);
    } else {
      assert content + text + [] == content + text;
      HeadFragment(Head(content), line);
    }
  }

  /** What a write at the start of a line makes of the file: the entry is on a finished line, or on the unfinished
      one if only the line feed is missing. */
  lemma FreshContent<T(!new)>(content: seq<byte>, e: T, codec: Codec<T>, io: Io)
    requires codec.Faithful() && codec.OneObject() && Fragment(content) == [] && Taken(codec.encode(e), io) != []
    ensures var after := Appended(content, e, codec, io);
            && EntriesOf(Head(after), codec) == EntriesOf(Head(content), codec) + (if io.Written? then [e] else [])
            && Decoded(LastLine(Fragment(after), false), codec)
               == (if !io.Written? && Taken(codec.encode(e), io) == codec.encode(e) then [e] else [])
            && (Fragment(after) != [] ==> codec.Begun(Fragment(after)))
  {
    if io.Written? {
      FreshWhole(content, e, codec);
    } else {
      FreshPart(content, e, codec, io);
    }
  }

  lemma FreshWhole<T(!new)>(content: seq<byte>, e: T, codec: Codec<T>)
    requires codec.Faithful() && Fragment(content) == []
    ensures var after := Appended(content, e, codec, Written);
            EntriesOf(Head(after), codec) == EntriesOf(Head(content), codec) + [e] && Fragment(after) == []
  {
    var text := codec.encode(e);
    TextTaken(e, codec, Written);
    assert [] + text == text;
    AppendedEntries(content, text, true, codec);
    AfterAppend(content, text, true);
    DecodedOne(text, codec);
  }

  lemma FreshPart<T(!new)>(content: seq<byte>, e: T, codec: Codec<T>, io: Io)
    requires codec.Faithful() && codec.OneObject() && Fragment(content) == [] && Taken(codec.encode(e), io) != [] && !io.Written?
    ensures var after, text := Appended(content, e, codec, io), Taken(codec.encode(e), io);
            && Head(after) == Head(content) && Fragment(after) == text && codec.Begun(text)
            && Decoded([text], codec) == (if text == codec.encode(e) then [e] else [])
  {
    var text := Taken(codec.encode(e), io);
    TextTaken(e, codec, io);
    assert [] + text == text;
    AfterAppend(content, text, false);
    DecodedOne(text, codec);
    PartOfEntry(e, codec, io);
  }

  /** A part of an entry begins as it does, and decodes exactly if it is all of it. */
  lemma PartOfEntry<T(!new)>(e: T, codec: Codec<T>, io: Io)
    requires codec.Faithful() && codec.OneObject() && Taken(codec.encode(e), io) != []
    ensures var text := Taken(codec.encode(e), io);
            && codec.Begun(text) && codec.decode(text) == (if text == codec.encode(e) then Some(e) else None)
  {
    var text := Taken(codec.encode(e), io);
    TextTaken(e, codec, io);
    assert codec.encode(e)[..|text|] <= text;
    assert |text| == |codec.encode(e)| ==> text == codec.encode(e);
  }

  lemma FreshBooks<T(!new)>(content: seq<byte>, after: seq<byte>, lines: seq<Line<T>>, line: Line<T>, codec: Codec<T>)
    requires FileInv(content, lines, codec) && Valid(content) && Valid(after) && Fragment(content) == []
    requires EntriesOf(Head(after), codec) == EntriesOf(Head(content), codec) + (if line.mark == Kept then [line.entry] else [])
    requires Decoded(LastLine(Fragment(after), false), codec) == (if line.mark == Open then [line.entry] else [])
    requires Fragment(after) != [] ==> codec.Begun(Fragment(after))
    ensures FileInv(after, lines + [line], codec)
  {
    Snoc(lines, line, Kept);
    Snoc(lines, line, Open);
    NoneOpen(lines);
  }

  lemma DecodedOne<T(!new)>(line: seq<byte>, codec: Codec<T>)
    ensures Decoded([line], codec) == match codec.decode(line) case Some(x) => [x] case None => []
  {
  }

  lemma {:induction false} NoneOpen<T>(lines: seq<Line<T>>)
    ensures Pick(lines, Open) == [] ==> forall i | 0 <= i < |lines| :: lines[i].mark != Open
  {
    if lines != [] {
      NoneOpen(lines[..|lines| - 1]);
    }
  }

  lemma BookedEntries<T(!new)>(content: seq<byte>, lines: seq<Line<T>>, e: T, codec: Codec<T>, io: Io)
    ensures Entries(Booked(lines, content, e, codec, io)) == Entries(lines) + [e]
  {
    SpoiltPick(lines, true);
    SpoiltPick(lines, false);
    Snoc(Left(lines, content, e, codec, io), Line(e, MarkOf(content, e, codec, io)), Kept);
  }

  lemma FileStep<T(!new)>(content: seq<byte>, lines: seq<Line<T>>, e: T, codec: Codec<T>, io: Io)
    requires codec.Faithful() && codec.OneObject() && FileInv(content, lines, codec)
    ensures FileInv(Appended(content, e, codec, io), Booked(lines, content, e, codec, io), codec)
  {
    if Taken(codec.encode(e), io) == [] {
      NothingWritten(content, lines, e, codec, io);
    } else if !Valid(Appended(content, e, codec, io)) {
      SpoiltMarks(lines, true);
    } else if Fragment(content) == [] {
      ValidAfterIff(content, e, codec, io);
      FreshContent(content, e, codec, io);
      FreshBooks(content, Appended(content, e, codec, io), lines, Line(e, MarkOf(content, e, codec, io)), codec);
    } else {
      WrittenBehind(content, lines, e, codec, io);
    }
  }

  // ---- Conservation ----

  /** A flush under way covers the books, and has read them as they are unless something was tried since. */
  ghost predicate FlushInv<T>(s: State<T>) {
    && (s.phase.Flushing? ==>
          && Entries(s.lines) == Entries(s.phase.lines) + s.phase.window
          && (s.phase.window == [] ==> s.lines == s.phase.lines)
          && s.phase.batch == Readable(s.phase.lines) && OpenLast(s.phase.lines))
    && (forall r | r in s.rounds :: r.batch == Readable(r.lines) && OpenLast(r.lines))
  }

  ghost predicate InOnePiece<T>(sink: seq<T>, r: Round<T>) {
    r.at + |r.batch| <= |sink| && sink[r.at..r.at + |r.batch|] == r.batch
  }

  /** What a flush has sent stands in the sink in one piece, for good. */
  ghost predicate SinkInv<T>(s: State<T>) {
    && (s.phase.Flushing? ==>
          && s.phase.sent <= |s.phase.batch|
          && s.phase.at + s.phase.sent == |s.sink|
          && s.sink[s.phase.at..] == s.phase.batch[..s.phase.sent])
    && (forall r | r in s.rounds :: InOnePiece(s.sink, r))
  }

  ghost predicate Inv<T(!new)>(s: State<T>, codec: Codec<T>) {
    FileInv(s.content, s.lines, codec) && FlushInv(s) && SinkInv(s)
  }

  lemma EmptyFile<T(!new)>(codec: Codec<T>)
    ensures FileInv([], [], codec)
  {
    assert HeadEnd([]) == 0 && Lines([]) == [];
  }

  lemma SinkStep<T(!new)>(s: State<T>, step: Step<T>, codec: Codec<T>)
    requires SinkInv(s) && Enabled(s, step)
    ensures SinkInv(Do(s, step, codec))
  {
    var t := Do(s, step, codec);
    if step.Clear? {
      assert s.sink[s.phase.at..s.phase.at + s.phase.sent] == s.sink[s.phase.at..];
    }
    forall r | r in s.rounds ensures InOnePiece(t.sink, r) {
      assert InOnePiece(s.sink, r);
      assert t.sink[..|s.sink|] == s.sink;
    }
  }

  lemma FlushStep<T(!new)>(s: State<T>, step: Step<T>, codec: Codec<T>)
    requires FileInv(s.content, s.lines, codec) && FlushInv(s) && Enabled(s, step)
    ensures FlushInv(Do(s, step, codec))
  {
    if step.Push? {
      BookedEntries(s.content, s.lines, step.entry, codec, step.io);
      if s.phase.Flushing? {
        Assoc(Entries(s.phase.lines), s.phase.window, [step.entry]);
      }
    } else if step.Scan? {
      ReadIsReadable(s.content, s.lines, codec);
    }
  }

  /** What a step adds to the books is what it tried to push. */
  lemma StepAccount<T(!new)>(s: State<T>, step: Step<T>, codec: Codec<T>)
    requires FlushInv(s) && Enabled(s, step)
    ensures Settled(Do(s, step, codec).rounds) + Entries(Do(s, step, codec).lines)
         == Settled(s.rounds) + Entries(s.lines) + (if step.Push? then [step.entry] else [])
  {
    if step.Push? {
      BookedEntries(s.content, s.lines, step.entry, codec, step.io);
      Assoc(Settled(s.rounds), Entries(s.lines), [step.entry]);
    } else if step.Clear? {
      var r := Round(s.phase.batch, s.phase.lines, s.phase.window, s.phase.at);
      assert (s.rounds + [r])[..|s.rounds|] == s.rounds;
      Assoc(Settled(s.rounds), Entries(r.lines), r.window);
    }
  }

  lemma StepInv<T(!new)>(s: State<T>, step: Step<T>, codec: Codec<T>)
    requires codec.Faithful() && codec.OneObject() && Inv(s, codec) && Enabled(s, step)
    ensures Inv(Do(s, step, codec), codec)
  {
    SinkStep(s, step, codec);
    FlushStep(s, step, codec);
    if step.Push? {
      FileStep(s.content, s.lines, step.entry, codec, step.io);
    } else if step.Clear? {
      EmptyFile(codec);
    }
  }

  lemma {:induction false} RunInv<T(!new)>(steps: seq<Step<T>>, codec: Codec<T>)
    requires codec.Faithful() && codec.OneObject() && Runs(steps, codec)
    ensures Inv(Exec(steps, codec), codec)
    ensures Attempts(steps) == Settled(Exec(steps, codec).rounds) + Entries(Exec(steps, codec).lines)
    decreases |steps|
  {
    if steps == [] {
      EmptyFile(codec);
    } else {
      RunInv(steps[..|steps| - 1], codec);
      StepInv(Exec(steps[..|steps| - 1], codec), steps[|steps| - 1], codec);
      StepAccount(Exec(steps[..|steps| - 1], codec), steps[|steps| - 1], codec);
    }
  }

  /** Queue conservation: the attempts of any run are, in order, those that completed flushes read, each followed by
      what was tried between its read and its clear, and then those on the file now. A reader finds exactly the
      readable ones, and those of every completed flush reached the sink in one piece. */
  lemma Conservation<T(!new)>(steps: seq<Step<T>>, codec: Codec<T>)
    requires codec.Faithful() && codec.OneObject() && Runs(steps, codec)
    ensures var t := Exec(steps, codec);
            && Attempts(steps) == Settled(t.rounds) + Entries(t.lines)
            && Read(t.content, codec) == Readable(t.lines)
            && forall r | r in t.rounds :: r.batch == Readable(r.lines) && InOnePiece(t.sink, r)
  {
    RunInv(steps, codec);
    ReadIsReadable(Exec(steps, codec).content, Exec(steps, codec).lines, codec);
  }

  // ---- A poisoned file ----

  /** The state of a run after its first `n` steps. */
  function StateAt<T(!new)>(steps: seq<Step<T>>, n: nat, codec: Codec<T>): State<T>
    requires Runs(steps, codec) && n <= |steps|
    decreases |steps|
  {
    if n == |steps| then Exec(steps, codec) else StateAt(steps[..|steps| - 1], n, codec)
  }

  predicate Poisoned<T>(s: State<T>) {
    !Valid(s.content) && s.phase.Idle?
  }

  /** Once the file is not UTF-8 and no flush is under way, nothing is sent, nothing is cleared and nothing is read
      ever again, however the run goes on. */
  lemma {:induction false} PoisonedForever<T(!new)>(steps: seq<Step<T>>, n: nat, codec: Codec<T>)
    requires codec.Faithful() && Runs(steps, codec) && n <= |steps| && Poisoned(StateAt(steps, n, codec))
    ensures var s, t := StateAt(steps, n, codec), Exec(steps, codec);
            Poisoned(t) && Read(t.content, codec) == [] && t.sink == s.sink && t.rounds == s.rounds
    decreases |steps|
  {
    if n < |steps| {
      var init, step := steps[..|steps| - 1], steps[|steps| - 1];
      PoisonedForever(init, n, codec);
      if step.Push? {
        ValidAfterIff(Exec(init, codec).content, step.entry, codec, step.io);
      }
    }
  }

  /** And it becomes so exactly if a write onto a file that is UTF-8 ends inside a character. */
  lemma PoisonsIff<T(!new)>(s: State<T>, step: Step<T>, codec: Codec<T>)
    requires codec.Faithful() && Enabled(s, step) && Valid(s.content)
    ensures !Valid(Do(s, step, codec).content) <==> step.Push? && !Valid(Taken(codec.encode(step.entry), step.io))
  {
    if step.Push? {
      ValidAfterIff(s.content, step.entry, codec, step.io);
    }
  }
}
