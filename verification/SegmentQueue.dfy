/** The durable segment queue (node/src/recorder/queue.rs) and its flush (node/src/ws_client.rs). */
module SegmentQueue {
  import opened Common
  import opened Strings
  import opened Utf8

  const LF: byte := 10
  const CR: byte := 13

  /** JSON encoding of one entry, left abstract. */
  datatype Codec<!T(!new)> = Codec(encode: T -> seq<byte>, decode: seq<byte> -> Option<T>) {
    /** Decoding undoes encoding, and an encoded entry is one line of text. */
    ghost predicate Faithful() {
      forall x: T ::
        decode(encode(x)) == Some(x) && encode(x) != [] && Valid(encode(x)) && LF !in encode(x) && CR !in encode(x)
    }

    /** Something that begins as an entry does. */
    ghost predicate Begun(f: seq<byte>) {
      exists y: T, m: nat :: 1 <= m <= |encode(y)| && encode(y)[..m] <= f
    }

    /** As with JSON objects, no part of an entry decodes, nor does anything that goes on with another entry. */
    ghost predicate OneObject() {
      && (forall x: T, n: nat | n < |encode(x)| :: decode(encode(x)[..n]).None?)
      && (forall f, x: T, n: nat | Begun(f) && 1 <= n <= |encode(x)| :: decode(f + encode(x)[..n]).None?)
    }
  }

  // ---- str::lines ----

  /** The index of the first line feed, or the length. */
  function LineEnd(s: seq<byte>): (k: nat)
    ensures k <= |s|
    ensures LF !in s[..k]
    ensures k < |s| ==> s[k] == LF
  {
    if s == [] || s[0] == LF then 0
    else
      var k := LineEnd(s[1..]);
      assert s[..k + 1] == [s[0]] + s[1..][..k];
      k + 1
  }

  function StripCr(line: seq<byte>): seq<byte> {
    if line != [] && line[|line| - 1] == CR then line[..|line| - 1] else line
  }

  /** Lines end in "\n" or "\r\n"; what follows the last line feed is a line unless it is empty. */
  function Lines(s: seq<byte>): seq<seq<byte>>
    decreases |s|
  {
    if s == [] then []
    else
      var k := LineEnd(s);
      if k == |s| then [s] else [StripCr(s[..k])] + Lines(s[k + 1..])
  }

  /** `filter_map(|line| serde_json::from_str(line).ok())` */
  function Decoded<T(!new)>(lines: seq<seq<byte>>, codec: Codec<T>): seq<T> {
    if lines == [] then []
    else
      var rest := Decoded(lines[1..], codec);
      match codec.decode(lines[0])
      case Some(x) => [x] + rest
      case None => rest
  }

  function EntriesOf<T(!new)>(content: seq<byte>, codec: Codec<T>): seq<T> {
    Decoded(Lines(content), codec)
  }

  /** `read_all`: `read_to_string` fails as a whole on a file that is not UTF-8, and the failure reads as empty. */
  function Read<T(!new)>(content: seq<byte>, codec: Codec<T>): seq<T> {
    if Valid(content) then EntriesOf(content, codec) else []
  }

  /** The file ends in a line feed, as every completed push leaves it. */
  predicate Terminated(content: seq<byte>) {
    content == [] || content[|content| - 1] == LF
  }

  lemma {:induction false} LineEndConcat(a: seq<byte>, b: seq<byte>)
    requires LineEnd(a) < |a|
    ensures LineEnd(a + b) == LineEnd(a)
  {
    if a[0] != LF {
      assert (a + b)[1..] == a[1..] + b;
      LineEndConcat(a[1..], b);
    }
  }

  lemma {:induction false} LinesConcat(a: seq<byte>, b: seq<byte>)
    requires Terminated(a)
    ensures Lines(a + b) == Lines(a) + Lines(b)
    decreases |a|
  {
    if a == [] {
      assert a + b == b;
    } else {
      var k := LineEnd(a);
      assert a[|a| - 1] == LF;
      assert k < |a| by {
        assert a[..|a|] == a;
      }
      LineEndConcat(a, b);
      SliceConcat(a, b, k);
      SliceConcat(a, b, k + 1);
      LinesConcat(a[k + 1..], b);
      Assoc([StripCr(a[..k])], Lines(a[k + 1..]), Lines(b));
    }
  }

  lemma {:induction false} LineEndAt(s: seq<byte>, k: nat)
    requires k < |s| && LF !in s[..k] && s[k] == LF
    ensures LineEnd(s) == k
  {
    if k > 0 {
      assert s[0] == s[..k][0];
      assert s[1..][..k - 1] == s[..k][1..];
      LineEndAt(s[1..], k - 1);
    }
  }

  lemma {:induction false} DecodedConcat<T(!new)>(a: seq<seq<byte>>, b: seq<seq<byte>>, codec: Codec<T>)
    ensures Decoded(a + b, codec) == Decoded(a, codec) + Decoded(b, codec)
  {
    if a == [] {
      assert a + b == b;
    } else {
      assert (a + b)[1..] == a[1..] + b;
      DecodedConcat(a[1..], b, codec);
    }
  }

  /** `str::lines` in full: a line feed ends a line, with a carriage return before it or without. */
  lemma CrLf(line: seq<byte>, rest: seq<byte>)
    requires LF !in line
    ensures Lines(line + [CR, LF] + rest) == [line] + Lines(rest)
    ensures line == [] || line[|line| - 1] != CR ==> Lines(line + [LF] + rest) == [line] + Lines(rest)
  {
    LineThen(line + [CR], rest);
    LineThen(line, rest);
    assert [CR, LF] == [CR] + [LF];
    Assoc(line, [CR], [LF]);
    Stripped(line);
  }

  lemma Stripped(line: seq<byte>)
    ensures StripCr(line + [CR]) == line && (LF !in line ==> LF !in line + [CR])
  {
    assert (line + [CR])[..|line|] == line;
  }

  lemma LineThen(line: seq<byte>, rest: seq<byte>)
    requires LF !in line
    ensures Lines(line + [LF] + rest) == [StripCr(line)] + Lines(rest)
  {
    var s := line + [LF] + rest;
    assert s[..|line|] == line && s[|line|] == LF && s[|line| + 1..] == rest;
    LineEndAt(s, |line|);
  }

  // ---- What a push leaves for the next reader ----

  /** The number of bytes up to and including the last line feed. */
  function HeadEnd(content: seq<byte>): (k: nat)
    ensures k <= |content|
    ensures k > 0 ==> content[k - 1] == LF
    ensures LF !in content[k..]
  {
    if content == [] || content[|content| - 1] == LF then |content|
    else
      var k := HeadEnd(content[..|content| - 1]);
      assert content[k..] == content[..|content| - 1][k..] + [content[|content| - 1]];
      k
  }

  function Head(content: seq<byte>): seq<byte> {
    content[..HeadEnd(content)]
  }

  /** What a write that stopped midway left behind the last line feed. */
  function Fragment(content: seq<byte>): seq<byte> {
    content[HeadEnd(content)..]
  }

  lemma TerminatedHead(content: seq<byte>)
    ensures Terminated(Head(content)) && content == Head(content) + Fragment(content)
    ensures Terminated(content) <==> Fragment(content) == []
    ensures Terminated(content) ==> Head(content) == content
  {
    if Terminated(content) && content != [] {
      assert HeadEnd(content) == |content|;
    }
  }

  lemma {:induction false} HeadEndAt(head: seq<byte>, fragment: seq<byte>)
    requires Terminated(head) && LF !in fragment
    ensures HeadEnd(head + fragment) == |head|
    decreases |fragment|
  {
    if fragment == [] {
      assert head + fragment == head;
    } else {
      var init := fragment[..|fragment| - 1];
      assert fragment[|fragment| - 1] in fragment;
      assert (head + fragment)[..|head| + |init|] == head + init;
      HeadEndAt(head, init);
    }
  }

  /** Where the last line starts does not depend on what it holds. */
  lemma HeadFragment(head: seq<byte>, fragment: seq<byte>)
    requires Terminated(head) && LF !in fragment
    ensures Head(head + fragment) == head && Fragment(head + fragment) == fragment
  {
    HeadEndAt(head, fragment);
  }

  /** The last line of a file, complete or not. */
  function LastLine(line: seq<byte>, complete: bool): seq<seq<byte>> {
    if complete then [StripCr(line)] else if line == [] then [] else [line]
  }

  function End(complete: bool): seq<byte> {
    if complete then [LF] else []
  }

  lemma OneLine(line: seq<byte>)
    requires LF !in line
    ensures Lines(line + [LF]) == LastLine(line, true) && Lines(line) == LastLine(line, false)
  {
    var s := line + [LF];
    assert s[..|line|] == line && s[|line| + 1..] == [];
    LineEndAt(s, |line|);
    assert LineEnd(line) == |line|;
  }

  lemma LineOf(line: seq<byte>, complete: bool)
    requires LF !in line
    ensures Lines(line + End(complete)) == LastLine(line, complete)
  {
    OneLine(line);
    assert line + [] == line;
  }

  /** Text without a line feed, put behind any file, completes or prolongs its last line and leaves the others. */
  lemma AppendedEntries<T(!new)>(content: seq<byte>, text: seq<byte>, complete: bool, codec: Codec<T>)
    requires LF !in text
    ensures EntriesOf(content + text + End(complete), codec)
         == EntriesOf(Head(content), codec) + Decoded(LastLine(Fragment(content) + text, complete), codec)
    ensures Head(content + text) == Head(content) && Fragment(content + text) == Fragment(content) + text
    ensures Terminated(content + text + [LF])
  {
    var line := Fragment(content) + text;
    TerminatedHead(content);
    Assoc(Head(content), Fragment(content), text);
    Assoc(Head(content), line, End(complete));
    LineOf(line, complete);
    HeadFragment(Head(content), line);
    LinesConcat(Head(content), line + End(complete));
    DecodedConcat(Lines(Head(content)), Lines(line + End(complete)), codec);
  }

  /** The part of an entry that the file takes. */
  function Taken(line: seq<byte>, io: Io): seq<byte> {
    match io
    case Written => line
    case OpenFails => []
    case Stops(n) => line[..Min(n, |line|)]
  }

  /** How a push ends: written out, the file cannot be opened, or the write stops after some bytes, perhaps none,
      because of an error or because the process dies. */
  datatype Io = Written | OpenFails | Stops(after: nat)

  /** The bytes of the file after a push. */
  function Appended<T(!new)>(content: seq<byte>, e: T, codec: Codec<T>, io: Io): seq<byte> {
    content + Taken(codec.encode(e), io) + End(io.Written?)
  }

  /** The file stays UTF-8 exactly if it was and the write does not end inside a character; it never comes back. */
  lemma ValidAfterIff<T(!new)>(content: seq<byte>, e: T, codec: Codec<T>, io: Io)
    requires codec.Faithful()
    ensures Valid(Appended(content, e, codec, io)) <==> Valid(content) && Valid(Taken(codec.encode(e), io))
  {
    var line, text := codec.encode(e), Taken(codec.encode(e), io);
    StartsWithCharacter(line);
    assert text != [] ==> text[0] == line[0];
    ValidSplit(content, text);
    assert content + text + [] == content + text;
    ValidAtAscii(content + text, LF, []);
    assert content + text + [LF] + [] == content + text + [LF];
  }

  /** What a reader finds after any push, from what it would have found before. */
  lemma ReadAfter<T(!new)>(content: seq<byte>, e: T, codec: Codec<T>, io: Io)
    requires codec.Faithful()
    ensures var text := Taken(codec.encode(e), io);
            Read(Appended(content, e, codec, io), codec)
            == if !Valid(content) || !Valid(text) then []
               else EntriesOf(Head(content), codec) + Decoded(LastLine(Fragment(content) + text, io.Written?), codec)
  {
    assert forall b | b in Taken(codec.encode(e), io) :: b in codec.encode(e);
    ValidAfterIff(content, e, codec, io);
    AppendedEntries(content, Taken(codec.encode(e), io), io.Written?, codec);
  }

  /** A push is read back behind the earlier lines exactly if the file is UTF-8 and the entry decodes together with
      what a torn line left; on a terminated file the second always holds. */
  lemma PushSurvivesIff<T(!new)>(content: seq<byte>, e: T, codec: Codec<T>)
    requires codec.Faithful()
    ensures Read(Appended(content, e, codec, Written), codec) == EntriesOf(Head(content), codec) + [e]
       <==> Valid(content) && codec.decode(StripCr(Fragment(content) + codec.encode(e))) == Some(e)
    ensures Valid(content) && Terminated(content) ==>
              Read(Appended(content, e, codec, Written), codec) == Read(content, codec) + [e]
  {
    var line := StripCr(Fragment(content) + codec.encode(e));
    ReadAfter(content, e, codec, Written);
    TerminatedHead(content);
    assert Decoded([line], codec) == match codec.decode(line) case Some(x) => [x] case None => [];
    assert [] + codec.encode(e) == codec.encode(e);
    if codec.decode(line).Some? {
      var x := codec.decode(line).value;
      assert (EntriesOf(Head(content), codec) + [x])[|EntriesOf(Head(content), codec)|] == x;
    }
  }

  // ---- An example: braces around two-byte letters ----

  function Letters(n: nat): (s: seq<byte>)
    ensures |s| == 2 * n && forall b | b in s :: b == 0xC3 || b == 0xA9
  {
    if n == 0 then [] else [0xC3, 0xA9] + Letters(n - 1)
  }

  function Brace(n: nat): seq<byte> {
    [123] + Letters(n) + [125]
  }

  function Unbrace(s: seq<byte>): Option<nat> {
    if |s| >= 2 && |s| % 2 == 0 && s == Brace((|s| - 2) / 2) then Some((|s| - 2) / 2) else None
  }

  function Braces(): Codec<nat> {
    Codec(Brace, Unbrace)
  }

  lemma {:induction false} LettersValid(n: nat)
    ensures Valid(Letters(n) + [125])
  {
    if n == 0 {
      assert [] + [125 as byte] == [125];
      assert CharLength([125]) == 1 && [125 as byte][1..] == [];
    } else {
      var s := Letters(n) + [125];
      assert s == [0xC3, 0xA9] + (Letters(n - 1) + [125]);
      assert CharLength(s) == 2 && s[2..] == Letters(n - 1) + [125];
      LettersValid(n - 1);
    }
  }

  /** The assumptions on a codec can be met. */
  lemma BracesCodec()
    ensures Braces().Faithful() && Braces().OneObject()
  {
    var codec := Braces();
    forall n: nat
      ensures codec.decode(codec.encode(n)) == Some(n) && codec.encode(n) != [] && Valid(codec.encode(n))
      ensures LF !in codec.encode(n) && CR !in codec.encode(n)
    {
      assert |Brace(n)| == 2 * n + 2;
      LettersValid(n);
      assert Brace(n) == [123] + (Letters(n) + [125]);
      ValidAtAscii([], 123, Letters(n) + [125]);
      assert [] + [123 as byte] + (Letters(n) + [125]) == Brace(n);
    }
    forall x: nat, n: nat | n < |codec.encode(x)| ensures codec.decode(codec.encode(x)[..n]).None? {
      PartOfBrace(x, n);
    }
    forall f, x: nat, n: nat | codec.Begun(f) && 1 <= n <= |codec.encode(x)|
      ensures codec.decode(f + codec.encode(x)[..n]).None?
    {
      assert f != [];
      BraceInside(f + Brace(x)[..n], |f|);
    }
  }

  lemma PartOfBrace(x: nat, n: nat)
    requires n < |Brace(x)|
    ensures Unbrace(Brace(x)[..n]).None?
  {
    var s := Brace(x)[..n];
    if n >= 2 {
      assert Brace(x)[n - 1] == Letters(x)[n - 2];
      assert Letters(x)[n - 2] in Letters(x);
    }
    if |s| >= 2 && |s| % 2 == 0 && s == Brace((|s| - 2) / 2) {
      assert false;
    }
  }

  lemma BraceAt(n: nat, i: nat)
    requires 0 < i < |Brace(n)|
    ensures Brace(n)[i] != 123
  {
    if i - 1 < |Letters(n)| {
      assert Letters(n)[i - 1] in Letters(n);
    }
  }

  lemma BraceInside(s: seq<byte>, i: nat)
    requires 0 < i < |s| && s[i] == 123
    ensures Unbrace(s).None?
  {
    if |s| % 2 == 0 {
      BraceAt((|s| - 2) / 2, i);
    }
  }

  /** A push that stops between two characters can take the next one with it: the write of 1 stops after three
      bytes, the push of 0 completes, and a reader finds neither. */
  lemma TornLineLosesNext()
    ensures var file := Appended([], 1, Braces(), Stops(3));
            Valid(file) && Read(Appended(file, 0, Braces(), Written), Braces()) == []
  {
    BracesCodec();
    TornExample();
    var file := Appended([], 1, Braces(), Stops(3));
    assert HeadEnd(file) == 0;
    ReadAfter(file, 0, Braces(), Written);
    assert Letters(0) == [];
    BraceInside(file + Brace(0), 3);
    assert Fragment(file) == file && Lines(Head(file)) == [];
  }

  lemma TornExample()
    ensures Appended([], 1, Braces(), Stops(3)) == [123, 0xC3, 0xA9]
    ensures Valid([123, 0xC3, 0xA9])
  {
    assert Letters(0) == [] && Letters(1) == [0xC3, 0xA9];
    var file: seq<byte> := [123, 0xC3, 0xA9];
    assert Brace(1)[..3] == file;
    ValidAtAscii([], 123, [0xC3, 0xA9]);
    assert [] + [123 as byte] + [0xC3, 0xA9] == file;
    assert CharLength([0xC3, 0xA9]) == 2 && [0xC3 as byte, 0xA9][2..] == [];
  }

  lemma SplitCharacter()
    ensures !Valid(Taken(Braces().encode(1), Stops(2)))
  {
    assert Letters(1) == [0xC3, 0xA9];
    var part: seq<byte> := [123, 0xC3];
    assert Brace(1)[..2] == part;
    assert CharLength(part) == 1 && part[1..] == [0xC3] && CharLength(part[1..]) == 0;
  }

  /** A push that stops inside a character takes all others with it: the earlier entries, any number of them, and
      every later one. */
  lemma SplitCharacterLosesAll(file: seq<byte>, later: nat)
    requires Read(file, Braces()) != []
    ensures var torn := Appended(file, 1, Braces(), Stops(2));
            && Read(torn, Braces()) == []
            && Read(Appended(torn, later, Braces(), Written), Braces()) == []
  {
    BracesCodec();
    SplitCharacter();
    var torn := Appended(file, 1, Braces(), Stops(2));
    ValidAfterIff(file, 1, Braces(), Stops(2));
    ValidAfterIff(torn, later, Braces(), Written);
  }

  // ---- The queue itself ----

  /** The file after a push; it is created when it can be opened. */
  function AfterPush<T(!new)>(file: Option<seq<byte>>, e: T, codec: Codec<T>, io: Io): Option<seq<byte>> {
    if io.OpenFails? then file else Some(Appended(Coalesce(file, []), e, codec, io))
  }

  /** The append-only file behind the queue; it is absent until the first push and after a clear. */
  class Queue<T(!new)> {
    const codec: Codec<T>
    var file: Option<seq<byte>>

    function Content(): seq<byte>
      reads this
    {
      Coalesce(file, [])
    }

    /** The entries a reader finds, in push order. */
    function Entries(): seq<T>
      reads this
    {
      Read(Content(), codec)
    }

    constructor (codec: Codec<T>)
      ensures this.codec == codec && file == None
    {
      this.codec := codec;
      file := None;
    }

    method Push(e: T, io: Io) returns (ok: bool)
      requires codec.Faithful()
      modifies this
      ensures ok <==> io.Written?
      ensures file == AfterPush(old(file), e, codec, io)
      ensures io.OpenFails? ==> Entries() == old(Entries())
      ensures Valid(Content()) <==> Valid(old(Content())) && Valid(Taken(codec.encode(e), io))
      ensures io.Written? && Valid(old(Content())) && Terminated(old(Content())) ==>
                Terminated(Content()) && Entries() == old(Entries()) + [e]
    {
      var line := codec.encode(e);
      var written := line + [LF];
      ValidAfterIff(Content(), e, codec, io);
      assert Content() + [] + [] == Content();
      match io {
        case OpenFails =>
          return false;
        case Stops(n) =>
          file := Some(Content() + written[..Min(n, |line|)]);
          assert written[..Min(n, |line|)] == line[..Min(n, |line|)];
          assert Content() + [] == Content();
          ok := false;
        case Written =>
          PushSurvivesIff(Content(), e, codec);
          AppendedEntries(Content(), line, true, codec);
          Assoc(Content(), line, [LF]);
          file := Some(Content() + written);
          ok := true;
      }
    }

    method ReadAll() returns (entries: seq<T>)
      ensures entries == Entries()
    {
      var content := if file.Some? && Valid(file.value) then file.value else [];
      assert Valid([]);
      entries := EntriesOf(content, codec);
    }

    /** The result of the removal is ignored, so it may leave everything in place. */
    method Clear(removed: bool)
      modifies this
      ensures removed ==> file == None && Entries() == []
      ensures !removed ==> file == old(file)
    {
      if removed {
        file := None;
      }
    }
  }

  /** The write half of the connection: it accepts frames until the link breaks. */
  class Sink<T> {
    var accepted: seq<(nat, T)>
    var capacity: nat

    constructor (capacity: nat)
      ensures accepted == [] && this.capacity == capacity
    {
      accepted, this.capacity := [], capacity;
    }

    method Send(seqNo: nat, payload: T) returns (ok: bool)
      modifies this
      ensures ok <==> old(capacity) > 0
      ensures ok ==> accepted == old(accepted) + [(seqNo, payload)] && capacity == old(capacity) - 1
      ensures !ok ==> accepted == old(accepted) && capacity == old(capacity)
    {
      ok := capacity > 0;
      if ok {
        accepted := accepted + [(seqNo, payload)];
        capacity := capacity - 1;
      }
    }
  }

  /** Payloads with consecutive sequence numbers from `first` on. */
  function Numbered<T>(payloads: seq<T>, first: nat): seq<(nat, T)> {
    seq(|payloads|, i requires 0 <= i < |payloads| => (first + i, payloads[i]))
  }

  /** `flush_queue`, with nobody pushing meanwhile: either the whole queue is sent and, if the removal works,
      emptied, or the prefix the link took is sent and the file stays as it was. Numbers are consecutive. */
  method FlushQueue<T(!new)>(queue: Queue<T>, sink: Sink<T>, seqNo: nat, removed: bool) returns (seqNo': nat)
    modifies queue, sink
    ensures var batch, cap := old(queue.Entries()), old(sink.capacity);
            && sink.accepted == old(sink.accepted) + Numbered(batch[..Min(cap, |batch|)], seqNo + 1)
            && queue.file == (if batch != [] && cap >= |batch| && removed then None else old(queue.file))
            && seqNo' == seqNo + (if cap >= |batch| then |batch| else cap + 1)
  {
    seqNo' := seqNo;
    var entries := queue.ReadAll();
    if entries == [] {
      assert Numbered(entries, seqNo + 1) == [];
      return;
    }
    var allSent := true;
    var i := 0;
    while i < |entries|
      invariant 0 <= i <= |entries|
      invariant allSent
      invariant seqNo' == seqNo + i
      invariant sink.accepted == old(sink.accepted) + Numbered(entries[..i], seqNo + 1)
      invariant sink.capacity + i == old(sink.capacity)
      invariant queue.file == old(queue.file)
    {
      seqNo' := seqNo' + 1;
      var ok := sink.Send(seqNo', entries[i]);
      if !ok {
        allSent := false;
        break;
      }
      assert Numbered(entries[..i + 1], seqNo + 1) == Numbered(entries[..i], seqNo + 1) + [(seqNo', entries[i])];
      i := i + 1;
    }
    if allSent {
      assert entries[..i] == entries;
      queue.Clear(removed);
    }
  }
}
