/** The thread of one client (client_handler.c): it receives bytes in chunks, takes the complete lines
    out of its buffer and hands what they say to the server. */
module Clients {
  import opened Base
  import opened Messages
  import opened Framing
  import T = UserTables
  import P = Protocol
  import opened Servers

  /** The JSON parser, which is not part of this model: any function from text to trees. */
  type Parser = seq<byte> -> Option<Json>

  /** `message_from_json` on text. */
  function Received(parse: Parser, text: seq<byte>): Option<Message> {
    match parse(text)
    case None => None
    case Some(json) => Decode(json)
  }

  // ------------------------------------------------------------------- the loops, step by step

  /** Why the thread ends: the client hung up, a chunk did not fit, or a line was no message. */
  datatype End = Hangup | Overflow | Refused

  /** What one connection did: the inputs it gave the server, the lines it took out of the buffer, the
      bytes it put into it, and the bytes it left there. */
  datatype Session = Session(inputs: seq<Option<Message>>, lines: seq<seq<byte>>, taken: seq<byte>,
                             left: seq<byte>, end: End)

  /** The outer loop, before `recv`. */
  function Receiving(parse: Parser, buffer: seq<byte>, chunks: seq<seq<byte>>): Session
    decreases |chunks|, 0, 0
  {
    if chunks == [] then Session([], [], [], buffer, Hangup)
    else if |buffer| + |chunks[0]| > SERVER_BUFFER_SIZE then Session([], [], [], buffer, Overflow)
    else
      var rest := Draining(parse, buffer + chunks[0], chunks[1..]);
      rest.(taken := chunks[0] + rest.taken)
  }

  /** The inner loop, before `message_buffer_extract`. */
  function Draining(parse: Parser, buffer: seq<byte>, chunks: seq<seq<byte>>): Session
    decreases |chunks|, 1, |buffer|
  {
    var k := FirstNewline(buffer);
    if k == |buffer| then Receiving(parse, buffer, chunks)
    else
      var text := Sanitized(buffer[..k]);
      if text != [] && Received(parse, text).None? then
        Session([None], [buffer[..k]], [], buffer[k + 1..], Refused)
      else
        var rest := Draining(parse, buffer[k + 1..], chunks);
        rest.(inputs := (if text == [] then [] else [Received(parse, text)]) + rest.inputs,
              lines := [buffer[..k]] + rest.lines)
  }

  /** No input lacks a field that its handler uses without a test. */
  predicate AllHandleable(inputs: seq<Option<Message>>) {
    forall i :: 0 <= i < |inputs| ==> P.Handleable(inputs[i])
  }

  /** The server after a client's inputs. */
  function Perform(s: P.State, e: P.Env, fd: int, inputs: seq<Option<Message>>): P.State
    requires AllHandleable(inputs)
    decreases inputs
  {
    if inputs == [] then s else Perform(P.Step(s, e, inputs[0], fd).0, e, fd, inputs[1..])
  }

  /** Whatever was decoded, only the fields of TEXT and PUBLIC_TEXT can be missing: the elements of the
      array of names never are. */
  lemma OnlyTextsLackFields(parse: Parser, text: seq<byte>)
    ensures P.Handleable(Received(parse, text)) <==>
            match Received(parse, text) {
              case None => true
              case Some(m) =>
                && (m.kind == TEXT ==> m.username.Some? && m.text.Some?)
                && (m.kind == PUBLIC_TEXT ==> m.text.Some?)
            }
  {
    match parse(text)
    case None =>
    case Some(json) =>
      if Decode(json).Some? {
        DecodableMessages(Decode(json).value);
      }
  }

  // ----------------------------------------------------------------- independence of the chunks

  function Joint(chunks: seq<seq<byte>>): seq<byte> {
    if chunks == [] then [] else chunks[0] + Joint(chunks[1..])
  }

  /** What `recv` returns: between one byte and a full chunk. */
  predicate Chunked(chunks: seq<seq<byte>>) {
    forall i :: 0 <= i < |chunks| ==> 0 < |chunks[i]| <= RECV_CHUNK_SIZE
  }

  /** Every line, and what follows the last one, leaves room for one more chunk. */
  predicate Short(stream: seq<byte>) {
    && (forall line :: line in Lines(stream) ==> |line| <= SERVER_BUFFER_SIZE - RECV_CHUNK_SIZE)
    && |Residue(stream)| <= SERVER_BUFFER_SIZE - RECV_CHUNK_SIZE
  }

  /** The lines with something left after sanitizing. */
  function Texts(lines: seq<seq<byte>>): seq<seq<byte>> {
    if lines == [] then []
    else (if Sanitized(lines[0]) == [] then [] else [Sanitized(lines[0])]) + Texts(lines[1..])
  }

  /** The texts as messages, up to and including the first that is none. */
  function Inputs(parse: Parser, texts: seq<seq<byte>>): seq<Option<Message>> {
    if texts == [] then []
    else [Received(parse, texts[0])] + if Received(parse, texts[0]).None? then [] else Inputs(parse, texts[1..])
  }

  lemma {:induction false} InputsUpToFirstRefused(parse: Parser, texts: seq<seq<byte>>)
    ensures var inputs := Inputs(parse, texts);
            && |inputs| <= |texts|
            && (forall i :: 0 <= i < |inputs| ==> inputs[i] == Received(parse, texts[i]))
            && (forall i :: 0 <= i < |inputs| - 1 ==> inputs[i].Some?)
            && (|inputs| < |texts| ==> inputs != [] && inputs[|inputs| - 1].None?)
  {
    if texts == [] {
    } else {
      InputsUpToFirstRefused(parse, texts[1..]);
    }
  }

  /** The texts are these lines, sanitized, in their order, and something is left of each. */
  ghost predicate Picks(lines: seq<seq<byte>>, texts: seq<seq<byte>>, places: seq<nat>) {
    && |places| == |texts|
    && (forall i :: 0 <= i < |places| ==>
         places[i] < |lines| && texts[i] == Sanitized(lines[places[i]]) && texts[i] != [])
    && (forall i, j :: 0 <= i < j < |places| ==> places[i] < places[j])
  }

  /** Nothing is left of any other line. */
  ghost predicate Skips(lines: seq<seq<byte>>, places: seq<nat>) {
    forall k :: 0 <= k < |lines| && k !in places ==> Sanitized(lines[k]) == []
  }

  lemma {:induction false} TextsInOrder(lines: seq<seq<byte>>) returns (places: seq<nat>)
    ensures Picks(lines, Texts(lines), places) && Skips(lines, places)
  {
    hide Sanitized, Picks, Skips;
    if lines == [] {
      places := [];
      NothingPicked();
    } else {
      var rest := TextsInOrder(lines[1..]);
      assert lines == [lines[0]] + lines[1..];
      var later := seq(|rest|, i requires 0 <= i < |rest| => rest[i] + 1);
      PickedLater(lines[0], lines[1..], Texts(lines[1..]), rest, later);
      SkippedLater(lines[0], lines[1..], rest, later);
      if Sanitized(lines[0]) == [] {
        places := later;
        assert [] + Texts(lines[1..]) == Texts(lines[1..]);
      } else {
        PickedFirst(lines, Texts(lines[1..]), rest, later);
        places := [0] + later;
      }
    }
  }

  lemma NothingPicked()
    ensures Picks([], Texts([]), []) && Skips([], [])
  {
  }

  predicate OneLater(rest: seq<nat>, later: seq<nat>) {
    |later| == |rest| && forall i :: 0 <= i < |rest| ==> later[i] == rest[i] + 1
  }

  lemma PickedLater(line: seq<byte>, lines: seq<seq<byte>>, texts: seq<seq<byte>>, rest: seq<nat>, later: seq<nat>)
    requires Picks(lines, texts, rest) && OneLater(rest, later)
    ensures Picks([line] + lines, texts, later)
  {
    hide Sanitized;
    var all := [line] + lines;
    forall i | 0 <= i < |later|
      ensures later[i] < |all| && texts[i] == Sanitized(all[later[i]]) && texts[i] != []
    {
      assert later[i] == rest[i] + 1;
      assert all[rest[i] + 1] == lines[rest[i]];
    }
    forall i, j | 0 <= i < j < |later|
      ensures later[i] < later[j]
    {
      assert rest[i] < rest[j];
    }
  }

  lemma PickedFirst(lines: seq<seq<byte>>, texts: seq<seq<byte>>, rest: seq<nat>, later: seq<nat>)
    requires Picks(lines, texts, later) && OneLater(rest, later) && lines != [] && Sanitized(lines[0]) != []
    ensures Picks(lines, [Sanitized(lines[0])] + texts, [0] + later)
  {
    hide Sanitized;
    var places, all := [0] + later, [Sanitized(lines[0])] + texts;
    forall i | 0 <= i < |places|
      ensures places[i] < |lines| && all[i] == Sanitized(lines[places[i]]) && all[i] != []
    {
      if i > 0 {
        assert places[i] == later[i - 1] && all[i] == texts[i - 1];
      }
    }
    forall i, j | 0 <= i < j < |places|
      ensures places[i] < places[j]
    {
      assert places[j] == later[j - 1] == rest[j - 1] + 1;
      if i > 0 {
        assert places[i] == later[i - 1] && later[i - 1] < later[j - 1];
      }
    }
  }

  lemma NotLater(rest: seq<nat>, later: seq<nat>, k: nat)
    requires OneLater(rest, later) && k !in later
    ensures forall i :: 0 <= i < |rest| ==> rest[i] != k - 1
  {
    forall i | 0 <= i < |rest|
      ensures rest[i] != k - 1
    {
      assert later[i] in later;
    }
  }

  lemma SkippedLater(line: seq<byte>, lines: seq<seq<byte>>, rest: seq<nat>, later: seq<nat>)
    requires Skips(lines, rest) && OneLater(rest, later)
    ensures Skips([line] + lines, [0] + later)
    ensures Sanitized(line) == [] ==> Skips([line] + lines, later)
  {
    hide Sanitized;
    forall k | 0 < k < |[line] + lines| && k !in later
      ensures Sanitized(([line] + lines)[k]) == []
    {
      NotLater(rest, later, k);
      assert ([line] + lines)[k] == lines[k - 1];
    }
  }

  lemma {:induction false} TextsStep(parse: Parser, line: seq<byte>, lines: seq<seq<byte>>)
    ensures var text := Sanitized(line);
            Inputs(parse, Texts([line] + lines))
            == if text == [] then Inputs(parse, Texts(lines))
               else if Received(parse, text).None? then [None]
               else [Received(parse, text)] + Inputs(parse, Texts(lines))
  {
    assert ([line] + lines)[1..] == lines;
    var text := Sanitized(line);
    if text == [] {
      assert [] + Texts(lines) == Texts(lines);
    } else {
      assert ([text] + Texts(lines))[1..] == Texts(lines);
    }
  }

  lemma ShortRest(line: seq<byte>, rest: seq<byte>)
    requires NEWLINE !in line && Short(line + [NEWLINE] + rest)
    ensures Short(rest)
  {
    hide Lines, Residue;
    FirstLine(line, rest);
  }

  lemma LateNewline(a: seq<byte>, b: seq<byte>)
    requires NEWLINE !in a
    ensures FirstNewline(a + b) >= |a|
  {
  }

  /** What waits for its newline is part of a line, so one more chunk fits. */
  lemma RoomForChunk(buffer: seq<byte>, more: seq<byte>)
    requires NEWLINE !in buffer && Short(buffer + more)
    ensures |buffer| <= SERVER_BUFFER_SIZE - RECV_CHUNK_SIZE
  {
    hide Residue;
    var s := buffer + more;
    var k := FirstNewline(s);
    LateNewline(buffer, more);
    if k == |s| {
      NoLine(s);
    } else {
      assert s[..k] in Lines(s);
    }
  }

  lemma {:induction false} ReceivingExact(parse: Parser, buffer: seq<byte>, chunks: seq<seq<byte>>)
    requires NEWLINE !in buffer && Chunked(chunks) && Short(buffer + Joint(chunks))
    ensures Receiving(parse, buffer, chunks).inputs == Inputs(parse, Texts(Lines(buffer + Joint(chunks))))
    ensures !Receiving(parse, buffer, chunks).end.Overflow?
    decreases |chunks|, 0, 0
  {
    hide Lines, Short, Inputs, Texts, Draining;
    if chunks == [] {
      assert buffer + Joint(chunks) == buffer;
      NoLine(buffer);
      NoInputs(parse);
    } else {
      RoomForChunk(buffer, Joint(chunks));
      assert buffer + Joint(chunks) == buffer + chunks[0] + Joint(chunks[1..]);
      DrainingExact(parse, buffer + chunks[0], chunks[1..]);
    }
  }

  lemma NoInputs(parse: Parser)
    ensures Inputs(parse, Texts([])) == []
  {
  }

  lemma {:induction false} DrainingExact(parse: Parser, buffer: seq<byte>, chunks: seq<seq<byte>>)
    requires Chunked(chunks) && Short(buffer + Joint(chunks))
    ensures Draining(parse, buffer, chunks).inputs == Inputs(parse, Texts(Lines(buffer + Joint(chunks))))
    ensures !Draining(parse, buffer, chunks).end.Overflow?
    decreases |chunks|, 1, |buffer|
  {
    hide Lines, Short, Inputs, Texts, Joint, Receiving, Sanitized, Received;
    var k := FirstNewline(buffer);
    if k == |buffer| {
      ReceivingExact(parse, buffer, chunks);
    } else {
      var line, rest := buffer[..k], buffer[k + 1..];
      assert buffer + Joint(chunks) == line + [NEWLINE] + (rest + Joint(chunks));
      ShortRest(line, rest + Joint(chunks));
      DrainingExact(parse, rest, chunks);
      FirstLine(line, rest + Joint(chunks));
      TextsStep(parse, line, Lines(rest + Joint(chunks)));
    }
  }

  /** However the network cuts a stream of short lines into chunks, nothing overflows and the server is
      given the sanitized lines that are not empty, in order, up to the first that is no message. */
  lemma ChunkingIndependence(parse: Parser, chunks: seq<seq<byte>>, others: seq<seq<byte>>)
    requires Chunked(chunks) && Chunked(others) && Joint(chunks) == Joint(others) && Short(Joint(chunks))
    ensures Receiving(parse, [], chunks).inputs == Receiving(parse, [], others).inputs
            == Inputs(parse, Texts(Lines(Joint(chunks))))
    ensures !Receiving(parse, [], chunks).end.Overflow?
  {
    hide Lines, Short, Inputs, Texts, Joint, Receiving;
    assert [] + Joint(chunks) == Joint(chunks);
    ReceivingExact(parse, [], chunks);
    ReceivingExact(parse, [], others);
  }

  /** A first line longer than the buffer never gets through, however it is cut. */
  lemma {:induction false} LongLineOverflows(parse: Parser, buffer: seq<byte>, chunks: seq<seq<byte>>)
    requires NEWLINE !in buffer && |buffer| <= SERVER_BUFFER_SIZE
    requires FirstNewline(buffer + Joint(chunks)) > SERVER_BUFFER_SIZE
    ensures Receiving(parse, buffer, chunks).inputs == [] && Receiving(parse, buffer, chunks).end == Overflow
    decreases |chunks|
  {
    assert buffer + [] == buffer;
    if chunks != [] && |buffer| + |chunks[0]| <= SERVER_BUFFER_SIZE {
      var next := buffer + chunks[0];
      var s := buffer + Joint(chunks);
      assert s == next + Joint(chunks[1..]);
      NoNewlineYet(next, Joint(chunks[1..]));
      LongLineOverflows(parse, next, chunks[1..]);
      IsFirstNewline(next, |next|);
    }
  }

  lemma NoNewlineYet(a: seq<byte>, b: seq<byte>)
    requires FirstNewline(a + b) >= |a|
    ensures NEWLINE !in a
  {
    forall i | 0 <= i < |a|
      ensures a[i] != NEWLINE
    {
      assert (a + b)[i] == a[i];
    }
  }

  // ------------------------------------------------------------- when some cut of a stream overflows

  /** The line is empty once sanitized, or a message. */
  predicate Passes(parse: Parser, line: seq<byte>) {
    Sanitized(line) == [] || Received(parse, Sanitized(line)).Some?
  }

  predicate AllPass(parse: Parser, lines: seq<seq<byte>>) {
    forall i :: 0 <= i < |lines| ==> Passes(parse, lines[i])
  }

  /** If a chunk begins at `a` and ends at `b` it does not fit behind what waits for its newline, and the
      thread has not stopped before at a line that is no message. */
  predicate OverflowsAt(parse: Parser, stream: seq<byte>, a: nat, b: nat) {
    && a < b <= |stream| && b - a <= RECV_CHUNK_SIZE
    && |Residue(stream[..a])| + (b - a) > SERVER_BUFFER_SIZE
    && AllPass(parse, Lines(stream[..a]))
  }

  lemma OverflowsLater(parse: Parser, line: seq<byte>, rest: seq<byte>, a: nat, b: nat)
    requires NEWLINE !in line && Passes(parse, line) && a <= |rest|
    ensures OverflowsAt(parse, line + [NEWLINE] + rest, |line| + 1 + a, |line| + 1 + b)
            <==> OverflowsAt(parse, rest, a, b)
  {
    hide Lines, Residue, Passes;
    var stream := line + [NEWLINE] + rest;
    assert stream[..|line| + 1 + a] == line + [NEWLINE] + rest[..a];
    FirstLine(line, rest[..a]);
    var lines := Lines(rest[..a]);
    AllPassStep(parse, line, lines);
  }

  lemma AllPassStep(parse: Parser, line: seq<byte>, lines: seq<seq<byte>>)
    ensures AllPass(parse, [line] + lines) <==> Passes(parse, line) && AllPass(parse, lines)
  {
    hide Passes;
    var all := [line] + lines;
    assert all[0] == line && all[1..] == lines;
    assert forall i :: 0 <= i < |lines| ==> lines[i] == all[i + 1];
  }

  lemma {:induction false} ReceivingOverflows(parse: Parser, buffer: seq<byte>, chunks: seq<seq<byte>>)
    returns (a: nat, b: nat)
    requires NEWLINE !in buffer && Chunked(chunks) && Receiving(parse, buffer, chunks).end.Overflow?
    ensures |buffer| <= a && OverflowsAt(parse, buffer + Joint(chunks), a, b)
    decreases |chunks|, 0, 0
  {
    hide Lines, Residue, Draining;
    var stream := buffer + Joint(chunks);
    if |buffer| + |chunks[0]| > SERVER_BUFFER_SIZE {
      a, b := |buffer|, |buffer| + |chunks[0]|;
      assert stream[..a] == buffer;
      NoLine(buffer);
    } else {
      assert stream == buffer + chunks[0] + Joint(chunks[1..]);
      a, b := DrainingOverflows(parse, buffer + chunks[0], chunks[1..]);
    }
  }

  lemma {:induction false} DrainingOverflows(parse: Parser, buffer: seq<byte>, chunks: seq<seq<byte>>)
    returns (a: nat, b: nat)
    requires Chunked(chunks) && Draining(parse, buffer, chunks).end.Overflow?
    ensures |buffer| <= a && OverflowsAt(parse, buffer + Joint(chunks), a, b)
    decreases |chunks|, 1, |buffer|
  {
    hide Lines, Residue, Receiving, Joint, Sanitized, Received, OverflowsAt;
    var k := FirstNewline(buffer);
    if k == |buffer| {
      a, b := ReceivingOverflows(parse, buffer, chunks);
    } else {
      var line, rest := buffer[..k], buffer[k + 1..];
      var a', b' := DrainingOverflows(parse, rest, chunks);
      InStream(parse, rest + Joint(chunks), a', b');
      OverflowsLater(parse, line, rest + Joint(chunks), a', b');
      assert buffer + Joint(chunks) == line + [NEWLINE] + (rest + Joint(chunks));
      a, b := k + 1 + a', k + 1 + b';
    }
  }

  lemma InStream(parse: Parser, stream: seq<byte>, a: nat, b: nat)
    requires OverflowsAt(parse, stream, a, b)
    ensures a < b <= |stream|
  {
  }

  /** The bytes of a stream that were received when a chunk of it does not fit. */
  lemma {:induction false} ReceivingReaches(
    parse: Parser, buffer: seq<byte>, before: seq<seq<byte>>, chunk: seq<byte>, after: seq<seq<byte>>)
    requires NEWLINE !in buffer && AllPass(parse, Lines(buffer + Joint(before)))
    requires |Residue(buffer + Joint(before))| + |chunk| > SERVER_BUFFER_SIZE
    ensures Receiving(parse, buffer, before + ([chunk] + after)).end.Overflow?
    decreases |before|, 0, 0
  {
    hide Lines, Residue, Draining, AllPass;
    var chunks := before + ([chunk] + after);
    if before == [] {
      assert buffer + Joint(before) == buffer;
      NoLine(buffer);
      assert chunks[0] == chunk;
    } else if |buffer| + |before[0]| <= SERVER_BUFFER_SIZE {
      assert chunks[0] == before[0] && chunks[1..] == before[1..] + ([chunk] + after);
      assert buffer + Joint(before) == buffer + before[0] + Joint(before[1..]);
      DrainingReaches(parse, buffer + before[0], before[1..], chunk, after);
    } else {
      assert chunks[0] == before[0];
    }
  }

  lemma {:induction false} DrainingReaches(
    parse: Parser, buffer: seq<byte>, before: seq<seq<byte>>, chunk: seq<byte>, after: seq<seq<byte>>)
    requires AllPass(parse, Lines(buffer + Joint(before)))
    requires |Residue(buffer + Joint(before))| + |chunk| > SERVER_BUFFER_SIZE
    ensures Draining(parse, buffer, before + ([chunk] + after)).end.Overflow?
    decreases |before|, 1, |buffer|
  {
    hide Lines, Residue, Receiving, Joint, Sanitized, Received, AllPass;
    var k := FirstNewline(buffer);
    if k == |buffer| {
      ReceivingReaches(parse, buffer, before, chunk, after);
    } else {
      var line, rest := buffer[..k], buffer[k + 1..];
      assert buffer + Joint(before) == line + [NEWLINE] + (rest + Joint(before));
      FirstLine(line, rest + Joint(before));
      AllPassStep(parse, line, Lines(rest + Joint(before)));
      DrainingReaches(parse, rest, before, chunk, after);
    }
  }

  /** One way to cut a stream. */
  function Cut(s: seq<byte>): (chunks: seq<seq<byte>>)
    ensures Chunked(chunks)
    decreases |s|
  {
    if s == [] then []
    else if |s| <= RECV_CHUNK_SIZE then [s]
    else [s[..RECV_CHUNK_SIZE]] + Cut(s[RECV_CHUNK_SIZE..])
  }

  lemma {:induction false} JointCut(s: seq<byte>)
    ensures Joint(Cut(s)) == s
    decreases |s|
  {
    if s == [] {
    } else {
      if |s| <= RECV_CHUNK_SIZE {
        assert [s][1..] == [];
      } else {
        var front, rest := s[..RECV_CHUNK_SIZE], s[RECV_CHUNK_SIZE..];
        JointCut(rest);
        assert ([front] + Cut(rest))[1..] == Cut(rest);
      }
    }
  }

  lemma {:induction false} JointConcat(a: seq<seq<byte>>, b: seq<seq<byte>>)
    ensures Joint(a + b) == Joint(a) + Joint(b)
  {
    if a == [] {
      assert a + b == b;
    } else {
      assert (a + b)[1..] == a[1..] + b && (a + b)[0] == a[0];
      JointConcat(a[1..], b);
    }
  }

  /** The chunks are of a size the network delivers, make up the stream, and one of them does not fit. */
  ghost predicate CutOverflows(parse: Parser, stream: seq<byte>, chunks: seq<seq<byte>>) {
    Chunked(chunks) && Joint(chunks) == stream && Receiving(parse, [], chunks).end.Overflow?
  }

  lemma CutAround(stream: seq<byte>, a: nat, b: nat) returns (chunks: seq<seq<byte>>)
    requires a < b <= |stream| && b - a <= RECV_CHUNK_SIZE
    ensures chunks == Cut(stream[..a]) + ([stream[a..b]] + Cut(stream[b..]))
    ensures Chunked(chunks) && Joint(chunks) == stream
  {
    hide Joint, Cut;
    var front, chunk, rest := stream[..a], stream[a..b], stream[b..];
    chunks := Cut(front) + ([chunk] + Cut(rest));
    JointCut(front);
    JointCut(rest);
    JointOne(chunk);
    JointConcat([chunk], Cut(rest));
    JointConcat(Cut(front), [chunk] + Cut(rest));
    assert stream == front + (chunk + rest);
  }

  lemma JointOne(chunk: seq<byte>)
    ensures Joint([chunk]) == chunk
  {
    assert [chunk][1..] == [];
  }

  /** The network can make a stream overflow the buffer exactly if there are two places in it, at most a
      chunk apart, such that what comes before the second and after the last newline before the first
      is more than the buffer holds. */
  lemma OverflowExactly(parse: Parser, stream: seq<byte>)
    ensures (exists chunks :: CutOverflows(parse, stream, chunks))
            <==> (exists a, b :: OverflowsAt(parse, stream, a, b))
  {
    hide Receiving, Joint, Cut, Lines, Residue, AllPass;
    if chunks :| CutOverflows(parse, stream, chunks) {
      assert [] + Joint(chunks) == stream;
      var a, b := ReceivingOverflows(parse, [], chunks);
    }
    if a: nat, b: nat :| OverflowsAt(parse, stream, a, b) {
      var chunks := CutAround(stream, a, b);
      JointCut(stream[..a]);
      assert [] + Joint(Cut(stream[..a])) == stream[..a];
      ReceivingReaches(parse, [], Cut(stream[..a]), stream[a..b], Cut(stream[b..]));
      assert CutOverflows(parse, stream, chunks);
    }
  }

  // --------------------------------------------------------- when every cut of a stream overflows

  /** Before any line that is no message there is a line that does not fit with its newline, or, if there is
      no such line, what follows the last newline does not fit. */
  predicate TooLong(parse: Parser, stream: seq<byte>) {
    exists i :: 0 <= i <= |Lines(stream)| && StuckAt(parse, stream, i)
  }

  predicate StuckAt(parse: Parser, stream: seq<byte>, i: nat)
    requires i <= |Lines(stream)|
  {
    && AllPass(parse, Lines(stream)[..i])
    && if i < |Lines(stream)| then |Lines(stream)[i]| >= SERVER_BUFFER_SIZE else |Residue(stream)| > SERVER_BUFFER_SIZE
  }

  lemma TooLongStep(parse: Parser, line: seq<byte>, rest: seq<byte>)
    requires NEWLINE !in line
    ensures TooLong(parse, line + [NEWLINE] + rest)
            <==> |line| >= SERVER_BUFFER_SIZE || (Passes(parse, line) && TooLong(parse, rest))
  {
    hide Lines, Residue, Passes, AllPass;
    var stream := line + [NEWLINE] + rest;
    FirstLine(line, rest);
    NoneFails(parse);
    assert StuckAt(parse, stream, 0) <==> |line| >= SERVER_BUFFER_SIZE by {
      assert Lines(stream)[..0] == [];
    }
    forall i: nat | i <= |Lines(rest)|
      ensures StuckAt(parse, stream, i + 1) <==> Passes(parse, line) && StuckAt(parse, rest, i)
    {
      assert Lines(stream)[..i + 1] == [line] + Lines(rest)[..i];
      AllPassStep(parse, line, Lines(rest)[..i]);
    }
    if TooLong(parse, stream) {
      var i :| 0 <= i <= |Lines(stream)| && StuckAt(parse, stream, i);
      if i > 0 {
        var j: nat := i - 1;
        assert StuckAt(parse, stream, j + 1);
        assert StuckAt(parse, rest, j);
      }
    }
    if |line| >= SERVER_BUFFER_SIZE {
      assert StuckAt(parse, stream, 0);
    } else if Passes(parse, line) && TooLong(parse, rest) {
      var i: nat :| 0 <= i <= |Lines(rest)| && StuckAt(parse, rest, i);
      assert StuckAt(parse, stream, i + 1);
    }
  }

  lemma NoneFails(parse: Parser)
    ensures AllPass(parse, [])
  {
  }

  lemma TooLongWithoutLine(parse: Parser, stream: seq<byte>)
    requires NEWLINE !in stream
    ensures TooLong(parse, stream) <==> |stream| > SERVER_BUFFER_SIZE
  {
    hide Lines, Residue;
    NoLine(stream);
    assert StuckAt(parse, stream, 0) <==> |stream| > SERVER_BUFFER_SIZE;
  }

  /** What waits for its newline is too long already. */
  lemma TooLongFront(parse: Parser, buffer: seq<byte>, more: seq<byte>)
    requires NEWLINE !in buffer && |buffer| >= SERVER_BUFFER_SIZE && more != []
    ensures TooLong(parse, buffer + more)
  {
    hide TooLong;
    var s := buffer + more;
    var k := FirstNewline(s);
    LateNewline(buffer, more);
    if k == |s| {
      TooLongWithoutLine(parse, s);
    } else {
      assert s == s[..k] + [NEWLINE] + s[k + 1..];
      TooLongStep(parse, s[..k], s[k + 1..]);
    }
  }

  lemma {:induction false} ReceivingTooLong(parse: Parser, buffer: seq<byte>, chunks: seq<seq<byte>>)
    requires NEWLINE !in buffer && |buffer| <= SERVER_BUFFER_SIZE && TooLong(parse, buffer + Joint(chunks))
    ensures Receiving(parse, buffer, chunks).end.Overflow?
    decreases |chunks|, 0, 0
  {
    hide TooLong, Draining;
    assert buffer + [] == buffer;
    TooLongWithoutLine(parse, buffer);
    if chunks != [] && |buffer| + |chunks[0]| <= SERVER_BUFFER_SIZE {
      assert buffer + Joint(chunks) == buffer + chunks[0] + Joint(chunks[1..]);
      DrainingTooLong(parse, buffer + chunks[0], chunks[1..]);
    }
  }

  lemma {:induction false} DrainingTooLong(parse: Parser, buffer: seq<byte>, chunks: seq<seq<byte>>)
    requires |buffer| <= SERVER_BUFFER_SIZE && TooLong(parse, buffer + Joint(chunks))
    ensures Draining(parse, buffer, chunks).end.Overflow?
    decreases |chunks|, 1, |buffer|
  {
    hide TooLong, Receiving, Joint, Sanitized, Received;
    var k := FirstNewline(buffer);
    if k == |buffer| {
      ReceivingTooLong(parse, buffer, chunks);
    } else {
      var line, rest := buffer[..k], buffer[k + 1..];
      assert buffer + Joint(chunks) == line + [NEWLINE] + (rest + Joint(chunks));
      TooLongStep(parse, line, rest + Joint(chunks));
      DrainingTooLong(parse, rest, chunks);
    }
  }

  /** The stream, byte by byte. */
  function Singly(s: seq<byte>): (chunks: seq<seq<byte>>)
    ensures Chunked(chunks)
  {
    if s == [] then [] else [[s[0]]] + Singly(s[1..])
  }

  lemma {:induction false} JointSingly(s: seq<byte>)
    ensures Joint(Singly(s)) == s
  {
    if s == [] {
    } else {
      JointSingly(s[1..]);
      assert Singly(s)[1..] == Singly(s[1..]);
    }
  }

  lemma {:induction false} ReceivingSingly(parse: Parser, buffer: seq<byte>, s: seq<byte>)
    requires NEWLINE !in buffer && !TooLong(parse, buffer + s)
    ensures !Receiving(parse, buffer, Singly(s)).end.Overflow?
    decreases |s|, 0, 0
  {
    hide TooLong, Draining;
    if s == [] {
    } else {
      if |buffer| >= SERVER_BUFFER_SIZE {
        TooLongFront(parse, buffer, s);
        assert false;
      }
      assert Singly(s)[0] == [s[0]] && Singly(s)[1..] == Singly(s[1..]);
      assert buffer + s == buffer + [s[0]] + s[1..];
      DrainingSingly(parse, buffer + [s[0]], s[1..]);
    }
  }

  lemma {:induction false} DrainingSingly(parse: Parser, buffer: seq<byte>, s: seq<byte>)
    requires !TooLong(parse, buffer + s)
    ensures !Draining(parse, buffer, Singly(s)).end.Overflow?
    decreases |s|, 1, |buffer|
  {
    hide TooLong, Receiving, Singly, Sanitized, Received;
    var k := FirstNewline(buffer);
    if k == |buffer| {
      ReceivingSingly(parse, buffer, s);
    } else {
      var line, rest := buffer[..k], buffer[k + 1..];
      assert buffer + s == line + [NEWLINE] + (rest + s);
      TooLongStep(parse, line, rest + s);
      if Passes(parse, line) {
        DrainingSingly(parse, rest, s);
      }
    }
  }

  /** A stream overflows the buffer however the network cuts it exactly if, before any line that is no
      message, some line has at least as many bytes as the buffer, or what follows the last one has more. */
  lemma EveryCutOverflowsExactly(parse: Parser, stream: seq<byte>)
    ensures TooLong(parse, stream)
            <==> forall chunks :: Chunked(chunks) && Joint(chunks) == stream ==> CutOverflows(parse, stream, chunks)
  {
    hide TooLong, Receiving, Joint, Singly;
    assert [] + stream == stream;
    if TooLong(parse, stream) {
      forall chunks | Chunked(chunks) && Joint(chunks) == stream
        ensures CutOverflows(parse, stream, chunks)
      {
        ReceivingTooLong(parse, [], chunks);
      }
    } else {
      JointSingly(stream);
      ReceivingSingly(parse, [], stream);
      assert !CutOverflows(parse, stream, Singly(stream));
    }
  }

  // ------------------------------------------------------------------------------ conservation

  /** Every byte accepted is in exactly one line, is the newline that ended it, or is left in the
      buffer; the bytes accepted are the beginning of what was sent, and all of it if the client hung
      up; and then no newline is left. */
  ghost predicate Conserves(r: Session, buffer: seq<byte>, chunks: seq<seq<byte>>) {
    && Joined(r.lines) + r.left == buffer + r.taken
    && r.taken <= Joint(chunks)
    && (r.end == Hangup ==> r.taken == Joint(chunks))
    && (r.end != Refused ==> NEWLINE !in r.left)
    && (forall line :: line in r.lines ==> NEWLINE !in line)
  }

  lemma {:induction false} ReceivingConserves(parse: Parser, buffer: seq<byte>, chunks: seq<seq<byte>>)
    requires NEWLINE !in buffer
    ensures Conserves(Receiving(parse, buffer, chunks), buffer, chunks)
    decreases |chunks|, 0, 0
  {
    var r := Receiving(parse, buffer, chunks);
    if chunks == [] || |buffer| + |chunks[0]| > SERVER_BUFFER_SIZE {
      NothingJoined();
    } else {
      DrainingConserves(parse, buffer + chunks[0], chunks[1..]);
      hide Draining, Joined;
      var rest := Draining(parse, buffer + chunks[0], chunks[1..]);
      ChunkConserves(rest, r, buffer, chunks);
    }
  }

  lemma ChunkConserves(rest: Session, r: Session, buffer: seq<byte>, chunks: seq<seq<byte>>)
    requires chunks != [] && Conserves(rest, buffer + chunks[0], chunks[1..])
    requires r == rest.(taken := chunks[0] + rest.taken)
    ensures Conserves(r, buffer, chunks)
  {
  }

  lemma LineConserves(rest: Session, r: Session, line: seq<byte>, after: seq<byte>, chunks: seq<seq<byte>>)
    requires NEWLINE !in line && Conserves(rest, after, chunks)
    requires r.lines == [line] + rest.lines && r.taken == rest.taken && r.left == rest.left && r.end == rest.end
    ensures Conserves(r, line + [NEWLINE] + after, chunks)
  {
    hide Joined, Joint;
    JoinedStep(line, rest.lines);
    assert Joined(r.lines) + r.left == line + [NEWLINE] + (Joined(rest.lines) + rest.left);
    assert line + [NEWLINE] + after + r.taken == line + [NEWLINE] + (after + rest.taken);
  }

  lemma {:induction false} DrainingConserves(parse: Parser, buffer: seq<byte>, chunks: seq<seq<byte>>)
    ensures Conserves(Draining(parse, buffer, chunks), buffer, chunks)
    decreases |chunks|, 1, |buffer|
  {
    hide Conserves, Receiving, Sanitized, Received;
    var k := FirstNewline(buffer);
    var r := Draining(parse, buffer, chunks);
    if k == |buffer| {
      ReceivingConserves(parse, buffer, chunks);
    } else {
      var line, after := buffer[..k], buffer[k + 1..];
      assert buffer == line + [NEWLINE] + after;
      if r.end == Refused && r.lines == [line] && r.left == after && r.taken == [] {
        LastLineConserves(r, line, after, chunks);
      } else {
        DrainingConserves(parse, after, chunks);
        LineConserves(Draining(parse, after, chunks), r, line, after, chunks);
      }
    }
  }

  lemma LastLineConserves(r: Session, line: seq<byte>, after: seq<byte>, chunks: seq<seq<byte>>)
    requires NEWLINE !in line && r.end == Refused && r.lines == [line] && r.left == after && r.taken == []
    ensures Conserves(r, line + [NEWLINE] + after, chunks)
  {
  }

  // ------------------------------------------------------------------------------- the thread

  /** Takes the next line out of the buffer and sanitizes it.  With room for a whole buffer nothing is
      cut off, so the length that is reported is the length that was copied. */
  method NextText(buffer: MessageBuffer, message: array<byte>) returns (found: bool, length: nat)
    requires buffer.Valid() && message != buffer.data && message.Length == SERVER_BUFFER_SIZE
    modifies buffer`length, buffer.data, message
    ensures buffer.Valid()
    ensures var was := old(buffer.Contents());
            var k := FirstNewline(was);
            && (found <==> k < |was|)
            && (!found ==> buffer.Contents() == was)
            && (found ==>
                 && length < message.Length && message[..length] == Sanitized(was[..k])
                 && buffer.Contents() == was[k + 1..])
  {
    found, length := buffer.Extract(message, SERVER_BUFFER_SIZE);
    if found {
      ghost var rest := buffer.Contents();
      length := Sanitize(message, length);
      assert buffer.Contents() == rest;
    }
  }

  /** What happens to a line that is no message. */
  method Refuse(server: Server, e: P.Env, fd: int)
    requires P.Iterates(e) && server.Valid() && fd >= 0
    modifies server, server.store.Repr
    ensures server.Valid() && fresh(server.store.Repr - old(server.store.Repr))
    ensures server.State() == P.Step(old(server.State()), e, None, fd).0
  {
    var _ := server.Send(e, fd, P.Response("INVALID", "INVALID", None));
    var user := server.FindByFd(fd);
    if user.Some? {
      var _ := server.Process(e, BLANK.(kind := DISCONNECT), fd);
    } else {
      server.Close(fd);
    }
  }

  /** These inputs would lead from this state to that one. */
  ghost predicate Reaches(s: P.State, e: P.Env, fd: int, inputs: seq<Option<Message>>, result: P.State) {
    AllHandleable(inputs) && Perform(s, e, fd, inputs) == result
  }

  lemma ReachesAtEnd(s: P.State, e: P.Env, fd: int, result: P.State)
    requires Reaches(s, e, fd, [], result)
    ensures s == result
  {
  }

  lemma ReachesNext(
    s: P.State, e: P.Env, fd: int, msg: Option<Message>, inputs: seq<Option<Message>>, result: P.State)
    requires Reaches(s, e, fd, [msg] + inputs, result)
    ensures P.Handleable(msg) && Reaches(P.Step(s, e, msg, fd).0, e, fd, inputs, result)
  {
  }

  /** The run continued by a client's inputs. */
  function Continued(run: seq<P.Input>, fd: int, inputs: seq<Option<Message>>): seq<P.Input> {
    run + seq(|inputs|, i requires 0 <= i < |inputs| => P.Input(fd, inputs[i]))
  }

  lemma {:induction false} SamePrefix(e: P.Env, run: seq<P.Input>, longer: seq<P.Input>, k: nat)
    requires P.Admissible(longer) && P.Admissible(run) && k <= |run| && run <= longer
    ensures P.After(e, longer, k) == P.After(e, run, k)
  {
    hide P.Step, P.Admissible;
    if k == 0 {
    } else {
      SamePrefix(e, run, longer, k - 1);
    }
  }

  lemma ContinuedAdmissible(run: seq<P.Input>, fd: int, inputs: seq<Option<Message>>)
    requires P.Admissible(run) && fd >= 0 && AllHandleable(inputs)
    ensures P.Admissible(Continued(run, fd, inputs))
  {
  }

  /** What a session does to a reachable state is part of a run: what is proved of runs holds of the
      server at every moment of every session. */
  lemma {:induction false} SessionIsRun(e: P.Env, run: seq<P.Input>, fd: int, inputs: seq<Option<Message>>)
    requires P.Admissible(run) && fd >= 0 && AllHandleable(inputs)
    ensures P.Admissible(Continued(run, fd, inputs))
    ensures Perform(P.After(e, run, |run|), e, fd, inputs)
            == P.After(e, Continued(run, fd, inputs), |run| + |inputs|)
    decreases inputs
  {
    hide P.Step, P.Handleable;
    ContinuedAdmissible(run, fd, inputs);
    if inputs == [] {
      assert Continued(run, fd, inputs) == run;
    } else {
      var next := run + [P.Input(fd, inputs[0])];
      OneMore(e, run, P.Input(fd, inputs[0]));
      SessionIsRun(e, next, fd, inputs[1..]);
      assert Continued(next, fd, inputs[1..]) == Continued(run, fd, inputs);
    }
  }

  lemma OneMore(e: P.Env, run: seq<P.Input>, input: P.Input)
    requires P.Admissible(run) && input.fd >= 0 && P.Handleable(input.msg)
    ensures P.Admissible(run + [input])
    ensures P.After(e, run + [input], |run| + 1) == P.Step(P.After(e, run, |run|), e, input.msg, input.fd).0
  {
    hide P.Step, P.Handleable;
    SamePrefix(e, run, run + [input], |run|);
  }

  /** One turn of the inner loop. */
  lemma DrainStep(parse: Parser, buffer: seq<byte>, chunks: seq<seq<byte>>)
    ensures var k := FirstNewline(buffer);
            var inputs := Draining(parse, buffer, chunks).inputs;
            if k == |buffer| then inputs == Receiving(parse, buffer, chunks).inputs
            else
              var text := Sanitized(buffer[..k]);
              var rest := Draining(parse, buffer[k + 1..], chunks).inputs;
              inputs == if text == [] then rest
                        else if Received(parse, text).None? then [None] + []
                        else [Received(parse, text)] + rest
  {
  }

  /** The thread's own buffers are no part of the server. */
  ghost predicate Separate(server: Server, buffer: MessageBuffer, message: array<byte>)
    reads server.store
  {
    buffer !in server.store.Repr && buffer.data !in server.store.Repr && message !in server.store.Repr
  }

  /** The inner loop of `handle_client`. */
  method DrainBuffer(server: Server, e: P.Env, fd: int, parse: Parser, buffer: MessageBuffer, message: array<byte>,
                     ghost chunks: seq<seq<byte>>, ghost result: P.State) returns (open: bool)
    requires P.Iterates(e) && server.Valid() && fd >= 0
    requires buffer.Valid() && message != buffer.data && message.Length == SERVER_BUFFER_SIZE
    requires Separate(server, buffer, message)
    requires Reaches(server.State(), e, fd, Draining(parse, buffer.Contents(), chunks).inputs, result)
    modifies server, server.store.Repr, buffer`length, buffer.data, message
    ensures server.Valid() && buffer.Valid() && fresh(server.store.Repr - old(server.store.Repr))
    ensures Separate(server, buffer, message)
    ensures if open then Reaches(server.State(), e, fd, Receiving(parse, buffer.Contents(), chunks).inputs, result)
            else server.State() == result
  {
    hide P.Iterates, Reaches, Draining, Receiving, Received, Sanitized, Servers.Server.Valid, P.Step;
    while true
      invariant server.Valid() && buffer.Valid() && fresh(server.store.Repr - old(server.store.Repr))
      invariant Separate(server, buffer, message)
      invariant Reaches(server.State(), e, fd, Draining(parse, buffer.Contents(), chunks).inputs, result)
      decreases buffer.length
    {
      DrainStep(parse, buffer.Contents(), chunks);
      var found, length := NextText(buffer, message);
      if !found {
        return true;
      }
      if length == 0 {
        continue;
      }
      var msg := Received(parse, message[..length]);
      if msg.None? {
        ReachesNext(server.State(), e, fd, None, [], result);
        Refuse(server, e, fd);
        ReachesAtEnd(server.State(), e, fd, result);
        return false;
      }
      ReachesNext(server.State(), e, fd, msg, Draining(parse, buffer.Contents(), chunks).inputs, result);
      HandleOne(server, e, fd, msg.value);
    }
  }

  method HandleOne(server: Server, e: P.Env, fd: int, m: Message)
    requires P.Iterates(e) && server.Valid() && fd >= 0 && P.Handleable(Some(m))
    modifies server, server.store.Repr
    ensures server.Valid() && fresh(server.store.Repr - old(server.store.Repr))
    ensures server.State() == P.Step(old(server.State()), e, Some(m), fd).0
  {
    var _ := server.Process(e, m, fd);
  }

  /** `handle_client`.  It does to the server exactly the inputs of its session. */
  method HandleClient(server: Server, e: P.Env, fd: int, parse: Parser, chunks: seq<seq<byte>>)
    requires P.Iterates(e) && server.Valid() && fd >= 0
    requires AllHandleable(Receiving(parse, [], chunks).inputs)
    modifies server, server.store.Repr
    ensures server.Valid() && fresh(server.store.Repr - old(server.store.Repr))
    ensures Reaches(old(server.State()), e, fd, Receiving(parse, [], chunks).inputs, server.State())
  {
    var buffer := new MessageBuffer();
    var message := new byte[SERVER_BUFFER_SIZE];
    assert server.Valid() && Separate(server, buffer, message);
    ghost var result := Perform(server.State(), e, fd, Receiving(parse, [], chunks).inputs);
    assert chunks[0..] == chunks;
    assert Reaches(server.State(), e, fd, Receiving(parse, [], chunks).inputs, result);
    hide P.Iterates, Reaches, Draining, Servers.Server.Valid;
    for i := 0 to |chunks|
      invariant server.Valid() && buffer.Valid() && fresh(server.store.Repr - old(server.store.Repr))
      invariant fresh(buffer) && fresh(buffer.data) && fresh(message) && message != buffer.data
      invariant Separate(server, buffer, message)
      invariant Reaches(server.State(), e, fd, Receiving(parse, buffer.Contents(), chunks[i..]).inputs, result)
      invariant Reaches(old(server.State()), e, fd, Receiving(parse, [], chunks).inputs, result)
    {
      assert chunks[i..][0] == chunks[i] && chunks[i..][1..] == chunks[i + 1..];
      var appended := buffer.Append(chunks[i]);
      if appended != 0 {
        ReachesAtEnd(server.State(), e, fd, result);
        return;
      }
      var open := DrainBuffer(server, e, fd, parse, buffer, message, chunks[i + 1..], result);
      if !open {
        return;
      }
    }
    ReachesAtEnd(server.State(), e, fd, result);
  }
}
