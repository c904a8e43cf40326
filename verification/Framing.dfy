/** The byte stream of one client (message_buffer.c): a fixed array that is appended to, scanned for
    newlines, shifted and filtered in place. */
module Framing {
  import opened Base

  newtype byte = b: int | 0 <= b < 256

  const SERVER_BUFFER_SIZE := 1024 * 1024
  const RECV_CHUNK_SIZE := 1024

  const NEWLINE: byte := 10

  /** NUL, backspace, tab, newline and carriage return. */
  predicate Dropped(b: byte) {
    b == 0 || b == 8 || b == 9 || b == 10 || b == 13
  }

  // ------------------------------------------------------------------------------ meaning

  function Sanitized(s: seq<byte>): (r: seq<byte>)
    ensures |r| <= |s|
  {
    if s == [] then [] else (if Dropped(s[0]) then [] else [s[0]]) + Sanitized(s[1..])
  }

  predicate IsValid(s: seq<byte>) {
    forall i :: 0 <= i < |s| ==> !Dropped(s[i])
  }

  /** The place of the first newline, or the length. */
  function FirstNewline(s: seq<byte>): (k: nat)
    ensures k <= |s|
    ensures k < |s| ==> s[k] == NEWLINE
    ensures forall i :: 0 <= i < k ==> s[i] != NEWLINE
  {
    if s == [] || s[0] == NEWLINE then 0 else 1 + FirstNewline(s[1..])
  }

  /** The lines that are complete. */
  function Lines(s: seq<byte>): seq<seq<byte>>
    decreases |s|
  {
    var k := FirstNewline(s);
    if k == |s| then [] else [s[..k]] + Lines(s[k + 1..])
  }

  /** What follows the last newline. */
  function Residue(s: seq<byte>): (r: seq<byte>)
    ensures NEWLINE !in r
    decreases |s|
  {
    var k := FirstNewline(s);
    if k == |s| then s else Residue(s[k + 1..])
  }

  /** Lines with their newlines. */
  function Joined(lines: seq<seq<byte>>): seq<byte> {
    if lines == [] then [] else lines[0] + [NEWLINE] + Joined(lines[1..])
  }

  // ----------------------------------------------------------------------------- sanitizing

  lemma {:induction false} SanitizedConcat(a: seq<byte>, b: seq<byte>)
    ensures Sanitized(a + b) == Sanitized(a) + Sanitized(b)
  {
    if a == [] {
      assert a + b == b;
    } else {
      assert (a + b)[1..] == a[1..] + b && (a + b)[0] == a[0];
      SanitizedConcat(a[1..], b);
      var head := if Dropped(a[0]) then [] else [a[0]];
      var x, y := Sanitized(a[1..]), Sanitized(b);
      assert Sanitized(a) == head + x;
      assert Sanitized(a + b) == head + (x + y);
    }
  }

  /** The filter always yields valid text, and changes nothing exactly when the text was valid. */
  lemma {:induction false} SanitizedIsValid(s: seq<byte>)
    ensures IsValid(Sanitized(s))
    ensures Sanitized(s) == s <==> IsValid(s)
    ensures Sanitized(s) != s ==> |Sanitized(s)| < |s|
  {
    if s == [] {
    } else {
      SanitizedIsValid(s[1..]);
      assert s == [s[0]] + s[1..];
    }
  }

  /** `message_is_valid`. */
  method MessageIsValid(text: array<byte>, length: nat) returns (valid: bool)
    requires length <= text.Length
    ensures valid <==> Sanitized(text[..length]) == text[..length]
  {
    SanitizedIsValid(text[..length]);
    for i := 0 to length
      invariant IsValid(text[..i])
    {
      if Dropped(text[i]) {
        assert Dropped(text[..length][i]);
        return false;
      }
      assert text[..i + 1] == text[..i] + [text[i]];
    }
    return true;
  }

  /** `message_buffer_sanitize`: compacts the text in place and closes it with a NUL. */
  method Sanitize(text: array<byte>, length: nat) returns (newLength: nat)
    requires length < text.Length
    modifies text
    ensures newLength <= length
    ensures text[..newLength] == Sanitized(old(text[..length])) && text[newLength] == 0
    ensures text[length + 1..] == old(text[length + 1..])
  {
    newLength := 0;
    for readPos := 0 to length
      invariant newLength <= readPos
      invariant text[readPos..] == old(text[readPos..])
      invariant text[..newLength] == Sanitized(old(text[..readPos]))
    {
      var c := text[readPos];
      ghost var seen := old(text[..readPos]);
      assert c == old(text[readPos..])[0];
      assert old(text[..readPos + 1]) == seen + [c];
      SanitizedConcat(seen, [c]);
      assert [c][1..] == [];
      ghost var kept := text[..newLength];
      if !Dropped(c) {
        text[newLength] := c;
        newLength := newLength + 1;
        assert text[..newLength] == kept + [c];
      }
      assert text[readPos + 1..] == old(text[readPos + 1..]);
    }
    text[newLength] := 0;
  }

  // ---------------------------------------------------------------------------------- lines

  /** A first line and the rest. */
  lemma FirstLine(line: seq<byte>, rest: seq<byte>)
    requires NEWLINE !in line
    ensures Lines(line + [NEWLINE] + rest) == [line] + Lines(rest)
    ensures Residue(line + [NEWLINE] + rest) == Residue(rest)
  {
    var s := line + [NEWLINE] + rest;
    assert s[|line|] == NEWLINE;
    assert FirstNewline(s) == |line| by {
      assert forall i :: 0 <= i < |line| ==> s[i] == line[i];
    }
    assert s[..|line|] == line && s[|line| + 1..] == rest;
  }

  lemma IsFirstNewline(s: seq<byte>, k: nat)
    requires k <= |s| && forall i :: 0 <= i < k ==> s[i] != NEWLINE
    requires k < |s| ==> s[k] == NEWLINE
    ensures FirstNewline(s) == k
  {
  }

  lemma NoLine(s: seq<byte>)
    requires NEWLINE !in s
    ensures Lines(s) == [] && Residue(s) == s
  {
  }

  lemma JoinedStep(line: seq<byte>, lines: seq<seq<byte>>)
    ensures Joined([line] + lines) == line + [NEWLINE] + Joined(lines)
  {
  }

  lemma NothingJoined()
    ensures Joined([]) == []
  {
  }

  /** Every byte is in a line, is a newline that ended one, or is left over; and the lines and what is
      left over contain no newline. */
  lemma {:induction false} NothingLost(s: seq<byte>)
    ensures Joined(Lines(s)) + Residue(s) == s
    ensures (10 as byte) !in Residue(s) && forall line :: line in Lines(s) ==> (10 as byte) !in line
    decreases |s|
  {
    hide Lines, Residue, Joined;
    var k := FirstNewline(s);
    if k < |s| {
      var line, rest := s[..k], s[k + 1..];
      NothingLost(rest);
      assert s == line + [NEWLINE] + rest;
      FirstLine(line, rest);
      JoinedStep(line, Lines(rest));
    } else {
      NoLine(s);
      NothingJoined();
    }
  }

  /** More bytes only continue what was left over. */
  lemma {:induction false} LinesContinue(a: seq<byte>, b: seq<byte>)
    ensures Lines(a + b) == Lines(a) + Lines(Residue(a) + b)
    ensures Residue(a + b) == Residue(Residue(a) + b)
    decreases |a|
  {
    hide Lines, Residue;
    var k := FirstNewline(a);
    if k == |a| {
      NoLine(a);
    } else {
      var line, rest := a[..k], a[k + 1..];
      assert a == line + [NEWLINE] + rest;
      assert a + b == line + [NEWLINE] + (rest + b);
      FirstLine(line, rest);
      FirstLine(line, rest + b);
      LinesContinue(rest, b);
    }
  }

  // --------------------------------------------------------------------------------- buffer

  class MessageBuffer {
    const data: array<byte>
    var length: nat

    ghost predicate Valid()
      reads this
    {
      data.Length == SERVER_BUFFER_SIZE && length <= data.Length
    }

    ghost function Contents(): seq<byte>
      reads this, data
      requires Valid()
    {
      data[..length]
    }

    /** `message_buffer_init`. */
    constructor ()
      ensures Valid() && fresh(data) && Contents() == []
    {
      data := new byte[SERVER_BUFFER_SIZE];
      length := 0;
    }

    /** `message_buffer_append`: -1, and nothing changed, exactly when the chunk does not fit. */
    method Append(chunk: seq<byte>) returns (result: int)
      requires Valid()
      modifies this`length, data
      ensures Valid()
      ensures result == if old(length) + |chunk| > 1_048_576 then -1 else 0
      ensures Contents() == if result == 0 then old(Contents()) + chunk else old(Contents())
    {
      if length + |chunk| > SERVER_BUFFER_SIZE {
        return -1;
      }
      forall i | 0 <= i < |chunk| {
        data[length + i] := chunk[i];
      }
      length := length + |chunk|;
      return 0;
    }

    /** `memchr` for the newline. */
    method FindNewline() returns (at: nat)
      requires Valid()
      ensures at == FirstNewline(Contents())
    {
      at := 0;
      while at < length && data[at] != NEWLINE
        invariant at <= length && forall i :: 0 <= i < at ==> data[i] != NEWLINE
      {
        at := at + 1;
      }
      IsFirstNewline(Contents(), at);
    }

    /** `message_buffer_extract`: copies the first line out, as much of it as fits with a closing NUL,
        reports its whole length, and shifts the rest of the buffer to the front. */
    method Extract(out: array<byte>, capacity: nat) returns (found: bool, outLength: nat)
      requires Valid() && out != data && capacity <= out.Length
      modifies this`length, data, out
      ensures Valid()
      ensures found <==> capacity > 0 && FirstNewline(old(Contents())) < |old(Contents())|
      ensures !found ==> Contents() == old(Contents()) && out[..] == old(out[..])
      ensures found ==>
                var copied := if outLength < capacity - 1 then outLength else capacity - 1;
                && outLength == FirstNewline(old(Contents()))
                && out[..copied] == old(Contents())[..copied] && out[copied] == 0
                && out[copied + 1..] == old(out[copied + 1..])
                && Contents() == old(Contents())[outLength + 1..]
    {
      if capacity == 0 {
        return false, 0;
      }
      var newline := FindNewline();
      if newline == length {
        return false, 0;
      }
      outLength := newline;
      var copied := if outLength < capacity - 1 then outLength else capacity - 1;
      CopyOut(out, copied);
      Consume(outLength + 1);
      found := true;
    }

    /** Copies the front of the buffer out and closes it with a NUL. */
    method CopyOut(out: array<byte>, copied: nat)
      requires Valid() && out != data && copied <= length && copied < out.Length
      modifies out
      ensures Valid() && Contents() == old(Contents())
      ensures out[..copied] == Contents()[..copied] && out[copied] == 0
      ensures out[copied + 1..] == old(out[copied + 1..])
    {
      forall i | 0 <= i < copied {
        out[i] := data[i];
      }
      out[copied] := 0;
    }

    /** Moves what follows the first bytes to the front, over them. */
    method Consume(consumed: nat)
      requires Valid() && consumed <= length
      modifies this`length, data
      ensures Valid() && Contents() == old(Contents())[consumed..]
    {
      var remaining := length - consumed;
      forall i | 0 <= i < remaining {
        data[i] := data[consumed + i];
      }
      length := remaining;
    }
  }
}
