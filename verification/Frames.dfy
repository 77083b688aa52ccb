/** The line protocol of the network dialog (common-plugin/networkdialog.cpp): a stream
    that arrives in chunks is cut into lines, and lines "key:payload" are dispatched. */
module Frames {
  import opened Sequences
  import opened Text

  datatype Command = Command(key: string, payload: string)

  predicate KnownKey(key: string) {
    key == "password" || key == "connect"
  }

  /** The index of the first ':' at or after i, or |line|. */
  function FirstColon(line: string, i: nat): (r: nat)
    requires i <= |line|
    ensures i <= r <= |line| && (r < |line| ==> line[r] == ':')
    ensures forall j :: i <= j < r ==> line[j] != ':'
    decreases |line| - i
  {
    if i == |line| || line[i] == ':' then i else FirstColon(line, i + 1)
  }

  /** What one line makes the dialog do. */
  function Parse(line: string): seq<Command> {
    var i := FirstColon(line, 0);
    if i < |line| && KnownKey(line[..i]) then [Command(line[..i], line[i + 1..])] else []
  }

  function ParseAll(lines: seq<string>): seq<Command> {
    if lines == [] then [] else ParseAll(lines[..|lines| - 1]) + Parse(lines[|lines| - 1])
  }

  /** The text after the last newline. */
  function Tail(s: string): string {
    if s == "" then ""
    else
      var n := |s| - 1;
      if s[n] == '\n' then "" else Tail(s[..n]) + [s[n]]
  }

  /** The lines a newline ends. */
  function Lines(s: string): seq<string> {
    if s == "" then []
    else
      var n := |s| - 1;
      if s[n] == '\n' then Lines(s[..n]) + [Tail(s[..n])] else Lines(s[..n])
  }

  /** The text kept for the next chunk, and everything dispatched so far. */
  datatype Reader = Reader(lastData: string, dispatched: seq<Command>)

  /** One chunk: every piece is dispatched, the unfinished last one too. */
  function Read(r: Reader, chunk: string): Reader {
    var data := r.lastData + chunk;
    Reader(Tail(data), r.dispatched + ParseAll(Split(data, '\n')))
  }

  function ReadAll(chunks: seq<string>): Reader {
    if chunks == [] then Reader("", []) else Read(ReadAll(chunks[..|chunks| - 1]), chunks[|chunks| - 1])
  }

  function Flatten(chunks: seq<string>): string {
    if chunks == [] then "" else Flatten(chunks[..|chunks| - 1]) + chunks[|chunks| - 1]
  }

  /** How often an unfinished line was dispatched at the end of a chunk. */
  function Early(chunks: seq<string>): nat {
    if chunks == [] then 0 else Early(chunks[..|chunks| - 1]) + |Parse(Tail(Flatten(chunks)))|
  }

  // ----- cutting

  /** A character that is no separator joins the last piece. */
  lemma {:induction false} SplitGrows(s: string, x: char, c: char)
    requires x != c
    ensures var parts := Split(s, c); Split(s + [x], c) == parts[..|parts| - 1] + [parts[|parts| - 1] + [x]]
  {
    if s == "" {
      assert "" + [x] == [x];
      SplitOfFree([x], c);
    } else {
      assert (s + [x])[1..] == s[1..] + [x];
      SplitGrows(s[1..], x, c);
      var rest := Split(s[1..], c);
      if s[0] != c && |rest| == 1 {
        assert [s[0]] + (rest[0] + [x]) == [s[0]] + rest[0] + [x];
      }
    }
  }

  /** The pieces of a text are its finished lines and the text after them. */
  lemma {:induction false} SplitIsLines(s: string)
    ensures Split(s, '\n') == Lines(s) + [Tail(s)]
  {
    if s != "" {
      var n := |s| - 1;
      var init := s[..n];
      SplitIsLines(init);
      if s[n] == '\n' {
        assert s == init + ['\n'] + "";
        SplitOfConcat(init, "", '\n');
      } else {
        assert s == init + [s[n]];
        SplitGrows(init, s[n], '\n');
        var parts := Split(init, '\n');
        assert parts[|parts| - 1] == Tail(init) && parts[..|parts| - 1] == Lines(init);
      }
    }
  }

  lemma {:induction false} TailIsOpen(s: string)
    ensures Lines(Tail(s)) == [] && Tail(Tail(s)) == Tail(s)
  {
    if s != "" && s[|s| - 1] != '\n' {
      TailIsOpen(s[..|s| - 1]);
      assert Tail(s)[..|Tail(s)| - 1] == Tail(s[..|s| - 1]);
    }
  }

  lemma OpenChar(s: string, x: char)
    requires x != '\n'
    ensures Tail(s + [x]) == Tail(s) + [x] && Lines(s + [x]) == Lines(s)
  {
    assert (s + [x])[..|s|] == s;
  }

  lemma CloseChar(s: string)
    ensures Tail(s + ['\n']) == "" && Lines(s + ['\n']) == Lines(s) + [Tail(s)]
  {
    assert (s + ['\n'])[..|s|] == s;
  }

  /** Text that arrives later only touches the unfinished line. */
  lemma {:induction false} LaterText(a: string, b: string)
    ensures Tail(a + b) == Tail(Tail(a) + b)
    ensures Lines(a + b) == Lines(a) + Lines(Tail(a) + b)
  {
    var t := Tail(a);
    if b == "" {
      assert a + b == a && t + b == t;
      TailIsOpen(a);
    } else {
      var init, x := b[..|b| - 1], b[|b| - 1];
      assert b == init + [x];
      LaterText(a, init);
      Regroup(a, init, [x]);
      Regroup(t, init, [x]);
      if x == '\n' {
        CloseChar(a + init);
        CloseChar(t + init);
        Regroup(Lines(a), Lines(t + init), [Tail(a + init)]);
      } else {
        OpenChar(a + init, x);
        OpenChar(t + init, x);
      }
    }
  }

  /** Text without a newline goes on the unfinished line. */
  lemma {:induction false} OpenText(a: string, b: string)
    requires '\n' !in b
    ensures Tail(a + b) == Tail(a) + b && Lines(a + b) == Lines(a)
  {
    if b == "" {
      assert a + b == a && Tail(a) + b == Tail(a);
    } else {
      var init, x := b[..|b| - 1], b[|b| - 1];
      assert b == init + [x] && x in b;
      OpenText(a, init);
      OpenChar(a + init, x);
      Regroup(a, init, [x]);
      Regroup(Tail(a), init, [x]);
    }
  }

  /** A line is dispatched exactly when it is one of the two keys, a ':' and a payload. */
  lemma ParseExactly(line: string, c: Command)
    ensures Parse(line) == [c] <==>
              (c.key == "password" || c.key == "connect") && line == c.key + ":" + c.payload
    ensures Parse(line) == [] || exists d :: Parse(line) == [d]
  {
    var i := FirstColon(line, 0);
    if line == c.key + ":" + c.payload && (c.key == "password" || c.key == "connect") {
      assert forall k :: 0 <= k < |c.key| ==> line[k] == c.key[k] && c.key[k] != ':';
      assert line[|c.key|] == ':';
      assert i == |c.key|;
      assert line[..i] == c.key && line[i + 1..] == c.payload;
    }
    if Parse(line) == [c] {
      assert line == line[..i] + [line[i]] + line[i + 1..];
    }
  }

  lemma {:induction false} ParseAllOfConcat(a: seq<string>, b: seq<string>)
    ensures ParseAll(a + b) == ParseAll(a) + ParseAll(b)
    decreases |b|
  {
    if b == [] {
      assert a + b == a && ParseAll(a) + [] == ParseAll(a);
    } else {
      var n := |b| - 1;
      assert (a + b)[..|a + b| - 1] == a + b[..n];
      ParseAllOfConcat(a, b[..n]);
      assert ParseAll(a) + ParseAll(b[..n]) + Parse(b[n]) == ParseAll(a) + (ParseAll(b[..n]) + Parse(b[n]));
    }
  }

  /** What is dispatched for a text: the commands in its lines, and then its unfinished line. */
  lemma DispatchOf(s: string)
    ensures ParseAll(Split(s, '\n')) == ParseAll(Lines(s)) + Parse(Tail(s))
  {
    SplitIsLines(s);
    assert (Lines(s) + [Tail(s)])[..|Lines(s)|] == Lines(s);
  }

  // ----- every chunking

  /** However the stream is cut, what is kept is the text after its last newline, the
      finished lines are dispatched in order, and the rest of what is dispatched are the
      unfinished lines at the ends of chunks. */
  lemma {:induction false} AnyChunking(chunks: seq<string>)
    ensures var r, all := ReadAll(chunks), Flatten(chunks);
            && r.lastData == Tail(all)
            && Subsequence(ParseAll(Lines(all)), r.dispatched)
            && |r.dispatched| == |ParseAll(Lines(all))| + Early(chunks)
  {
    if chunks != [] {
      var before, chunk := chunks[..|chunks| - 1], chunks[|chunks| - 1];
      var r, all := ReadAll(before), Flatten(before);
      AnyChunking(before);
      LaterText(all, chunk);
      DispatchOf(Tail(all) + chunk);
      var ended, open := ParseAll(Lines(Tail(all) + chunk)), Parse(Tail(all + chunk));
      ParseAllOfConcat(Lines(all), Lines(Tail(all) + chunk));
      SubsequenceReflexive(ended);
      SubsequenceOfConcat(ended, ended, [], open);
      assert ended + [] == ended;
      SubsequenceOfConcat(ParseAll(Lines(all)), r.dispatched, ended, ended + open);
    }
  }

  lemma {:induction false} ShortSubsequence<T>(a: seq<T>, b: seq<T>)
    requires Subsequence(a, b)
    ensures |a| <= |b| && (|a| == |b| ==> a == b)
  {
    if a != [] {
      if a[0] == b[0] && Subsequence(a[1..], b[1..]) {
        ShortSubsequence(a[1..], b[1..]);
        assert a == [a[0]] + a[1..] && b == [b[0]] + b[1..];
      } else {
        ShortSubsequence(a, b[1..]);
      }
    }
  }

  /** No chunk ends in an unfinished line that already reads as a command. */
  predicate Quiet(chunks: seq<string>) {
    chunks == [] || (Quiet(chunks[..|chunks| - 1]) && Parse(Tail(Flatten(chunks))) == [])
  }

  lemma {:induction false} QuietIsNoneEarly(chunks: seq<string>)
    ensures Quiet(chunks) <==> Early(chunks) == 0
  {
    if chunks != [] {
      QuietIsNoneEarly(chunks[..|chunks| - 1]);
    }
  }

  /** Exactly the finished lines are dispatched, if and only if no chunk ends in an
      unfinished line that already reads as a command. */
  lemma ExactlyTheLines(chunks: seq<string>)
    ensures ReadAll(chunks).dispatched == ParseAll(Lines(Flatten(chunks))) <==> Quiet(chunks)
  {
    AnyChunking(chunks);
    ShortSubsequence(ParseAll(Lines(Flatten(chunks))), ReadAll(chunks).dispatched);
    QuietIsNoneEarly(chunks);
  }

  /** The next chunk of a stream. */
  lemma NextChunk(chunks: seq<string>, chunk: string)
    ensures ReadAll(chunks + [chunk]) == Read(ReadAll(chunks), chunk)
    ensures ReadAll(chunks + [chunk]).lastData == Tail(Flatten(chunks + [chunk]))
  {
    assert (chunks + [chunk])[..|chunks|] == chunks;
    AnyChunking(chunks + [chunk]);
  }

  lemma LastPiece(s: string)
    ensures var parts := Split(s, '\n'); |parts| > 0 && parts[|parts| - 1] == Tail(s)
  {
    SplitIsLines(s);
  }

  // ----- frames

  /** What changePassword and sendPassword write. */
  function Frame(c: Command): string {
    "\n" + c.key + ":" + c.payload + "\n"
  }

  function Stream(frames: seq<Command>): string {
    if frames == [] then "" else Stream(frames[..|frames| - 1]) + Frame(frames[|frames| - 1])
  }

  predicate Sendable(c: Command) {
    (c.key == "password" || c.key == "connect") && '\n' !in c.payload
  }

  lemma ParseOfLine(key: string, payload: string)
    requires KnownKey(key)
    ensures Parse(key + ":" + payload) == [Command(key, payload)]
  {
    var line := key + ":" + payload;
    assert forall i :: 0 <= i < |key| ==> line[i] == key[i] && key[i] != ':';
    assert line[|key|] == ':';
    assert FirstColon(line, 0) == |key|;
    assert line[..|key|] == key && line[|key| + 1..] == payload;
  }

  /** A newline ends the unfinished line. */
  lemma EndLine(s: string)
    ensures Lines(s + "\n") == Lines(s) + [Tail(s)] && Tail(s + "\n") == ""
  {
    var t := s + "\n";
    assert t[..|t| - 1] == s;
  }

  lemma LoneLine(line: string)
    requires '\n' !in line
    ensures Lines(line) == [] && Tail(line) == line
  {
    OpenText("", line);
    assert "" + line == line;
  }

  lemma FramedLine(line: string)
    requires '\n' !in line
    ensures Lines("\n" + line + "\n") == ["", line] && Tail("\n" + line + "\n") == ""
  {
    EndLine("");
    assert "" + "\n" == "\n";
    OpenText("\n", line);
    assert "" + line == line;
    EndLine("\n" + line);
  }

  lemma FrameLines(c: Command)
    requires Sendable(c)
    ensures Lines(Frame(c)) == ["", c.key + ":" + c.payload] && Tail(Frame(c)) == ""
  {
    var line := c.key + ":" + c.payload;
    FramedLine(line);
    assert Frame(c) == "\n" + line + "\n";
  }

  lemma ParseOne(a: string)
    ensures ParseAll([a]) == Parse(a)
  {
    assert ParseAll([a]) == ParseAll([a][..0]) + Parse(a);
    assert ParseAll([a][..0]) == [];
    assert [] + Parse(a) == Parse(a);
  }

  lemma ParseTwo(a: string, b: string)
    ensures ParseAll([a, b]) == Parse(a) + Parse(b)
  {
    ParseOne(a);
    assert [a, b][..1] == [a];
    assert ParseAll([a, b]) == ParseAll([a]) + Parse(b);
  }

  /** The text is finished lines with just these commands. */
  predicate Decoded(text: string, frames: seq<Command>) {
    ParseAll(Lines(text)) == frames && Tail(text) == ""
  }

  lemma FrameParses(c: Command)
    requires Sendable(c)
    ensures Decoded(Frame(c), [c])
  {
    FrameLines(c);
    ParseOfLine(c.key, c.payload);
    ParseTwo("", c.key + ":" + c.payload);
  }

  lemma MoreFrames(stream: string, frame: string, before: seq<Command>, c: Command)
    requires Decoded(stream, before) && Decoded(frame, [c])
    ensures Decoded(stream + frame, before + [c])
  {
    LaterText(stream, frame);
    assert "" + frame == frame;
    ParseAllOfConcat(Lines(stream), Lines(frame));
  }

  /** The lines of a stream of frames are the frames. */
  lemma {:induction false} StreamLines(frames: seq<Command>)
    requires forall i :: 0 <= i < |frames| ==> Sendable(frames[i])
    ensures Decoded(Stream(frames), frames)
  {
    if frames != [] {
      var before, c := frames[..|frames| - 1], frames[|frames| - 1];
      assert frames == before + [c];
      StreamLines(before);
      FrameParses(c);
      MoreFrames(Stream(before), Frame(c), before, c);
    }
  }

  lemma {:induction false} NewlinesAreQuiet(chunks: seq<string>)
    requires forall i :: 0 <= i < |chunks| ==> chunks[i] != "" && chunks[i][|chunks[i]| - 1] == '\n'
    ensures Quiet(chunks)
  {
    if chunks != [] {
      var before, chunk := chunks[..|chunks| - 1], chunks[|chunks| - 1];
      NewlinesAreQuiet(before);
      var all := Flatten(before) + chunk;
      assert all[|all| - 1] == chunk[|chunk| - 1];
      assert Tail(all) == "" && Parse("") == [];
    }
  }

  /** A stream of frames, cut anywhere as long as every chunk ends in a newline, is decoded
      to exactly those frames, in order. */
  lemma FramesRoundTrip(frames: seq<Command>, chunks: seq<string>)
    requires forall i :: 0 <= i < |frames| ==> Sendable(frames[i])
    requires Flatten(chunks) == Stream(frames)
    requires forall i :: 0 <= i < |chunks| ==> chunks[i] != "" && chunks[i][|chunks[i]| - 1] == '\n'
    ensures ReadAll(chunks).dispatched == frames && ReadAll(chunks).lastData == ""
  {
    StreamLines(frames);
    AnyChunking(chunks);
    NewlinesAreQuiet(chunks);
    ExactlyTheLines(chunks);
  }

  lemma ReadMore(chunks: seq<string>, r: Reader, chunk: string, more: seq<Command>)
    requires ReadAll(chunks) == r && ParseAll(Split(r.lastData + chunk, '\n')) == more
    ensures ReadAll(chunks + [chunk]).dispatched == r.dispatched + more
  {
    NextChunk(chunks, chunk);
  }

  lemma ReadLine(line: string)
    requires '\n' !in line
    ensures ReadAll([line]) == Reader(line, Parse(line))
  {
    LoneLine(line);
    DispatchOf(line);
    assert "" + line == line;
    assert ReadAll([line]) == Read(ReadAll([line][..0]), line);
    assert ReadAll([line][..0]) == Reader("", []);
    assert [] + ([] + Parse(line)) == Parse(line);
  }

  lemma FirstHalf(key: string, a: string)
    requires Sendable(Command(key, a))
    ensures ReadAll([key + ":" + a]) == Reader(key + ":" + a, [Command(key, a)])
  {
    ParseOfLine(key, a);
    ReadLine(key + ":" + a);
  }

  lemma SecondHalf(key: string, payload: string)
    requires Sendable(Command(key, payload))
    ensures ParseAll(Split(key + ":" + payload + "\n", '\n')) == [Command(key, payload)]
  {
    var line := key + ":" + payload;
    LoneLine(line);
    EndLine(line);
    DispatchOf(line + "\n");
    ParseOne(line);
    ParseOfLine(key, payload);
  }

  /** Cut elsewhere, a frame is dispatched first with a piece of its payload and then again. */
  lemma CutFrameIsDispatchedTwice(key: string, a: string, b: string)
    requires Sendable(Command(key, a)) && '\n' !in b
    ensures ReadAll([key + ":" + a, b + "\n"]).dispatched == [Command(key, a), Command(key, a + b)]
  {
    FirstHalf(key, a);
    SecondHalf(key, a + b);
    Regroup(key + ":" + a, b, "\n");
    Regroup(key + ":", a, b);
    ReadMore([key + ":" + a], Reader(key + ":" + a, [Command(key, a)]), b + "\n", [Command(key, a + b)]);
    assert [key + ":" + a, b + "\n"] == [key + ":" + a] + [b + "\n"];
  }
}
