// Splitting a byte stream into lines, independently of how it arrives.
module LineFraming {
  import opened Common

  newtype byte = x: int | 0 <= x < 256

  const NEWLINE: byte := 10

  /** Position of the first newline, or the length of the data. */
  function NewlineAt(data: seq<byte>): (n: nat)
    ensures n <= |data|
    ensures n < |data| ==> data[n] == NEWLINE
    ensures NEWLINE !in data[..n]
  {
    if data == [] || data[0] == NEWLINE then 0
    else
      var n := 1 + NewlineAt(data[1..]);
      assert data[..n] == [data[0]] + data[1..][..n - 1];
      n
  }

  /** The lines of a stream that a newline ends. */
  function Lines(data: seq<byte>): seq<seq<byte>> {
    var n := NewlineAt(data);
    if n == |data| then [] else [data[..n]] + Lines(data[n + 1..])
  }

  /** What follows the last newline. */
  function Residue(data: seq<byte>): seq<byte> {
    var n := NewlineAt(data);
    if n == |data| then data else Residue(data[n + 1..])
  }

  /** `u8::is_ascii_whitespace`: space, tab, line feed, form feed, carriage return. */
  predicate IsBlank(b: byte) {
    b == 32 || b == 9 || b == 10 || b == 12 || b == 13
  }

  predicate HasText(line: seq<byte>) {
    exists i | 0 <= i < |line| :: !IsBlank(line[i])
  }

  /** The messages of a stream: its lines, less the blank ones. */
  function Messages(data: seq<byte>): seq<seq<byte>> {
    Filter(HasText, Lines(data))
  }

  lemma {:induction false} LinesCut(data: seq<byte>)
    ensures var n := NewlineAt(data);
      if n == |data| then Lines(data) == [] && Residue(data) == data
      else Lines(data) == [data[..n]] + Lines(data[n + 1..]) && Residue(data) == Residue(data[n + 1..])
  {
    hide NewlineAt;
  }

  /** Cutting one line off leaves the rest to be split. */
  lemma {:induction false} CutLine(data: seq<byte>)
    ensures var n := NewlineAt(data);
      if n == |data| then Messages(data) == [] && Residue(data) == data
      else
        && Messages(data) == (if HasText(data[..n]) then [data[..n]] else []) + Messages(data[n + 1..])
        && Residue(data) == Residue(data[n + 1..])
  {
    hide Lines, Residue, HasText, NewlineAt;
    LinesCut(data);
    var n := NewlineAt(data);
    if n < |data| {
      var line, rest := data[..n], Lines(data[n + 1..]);
      FilterAppend(HasText, [line], rest);
      FilterSnoc(HasText, [], line);
      assert [] + [line] == [line];
    }
  }

  // ------------------------------------------------------- what splitting means

  /** The lines, each with its newline back. */
  function Unlines(lines: seq<seq<byte>>): seq<byte> {
    if lines == [] then [] else lines[0] + [NEWLINE] + Unlines(lines[1..])
  }

  ghost predicate NoNewlines(lines: seq<seq<byte>>) {
    forall i | 0 <= i < |lines| :: NEWLINE !in lines[i]
  }

  lemma UnlinesCons(line: seq<byte>, lines: seq<seq<byte>>, residue: seq<byte>)
    ensures Unlines([line] + lines) + residue == line + [NEWLINE] + (Unlines(lines) + residue)
  {
    assert ([line] + lines)[1..] == lines;
  }

  /** Splitting loses nothing and leaves no newline inside a line or the residue. */
  lemma {:induction false} SplitRejoins(data: seq<byte>)
    ensures Unlines(Lines(data)) + Residue(data) == data
    ensures NoNewlines(Lines(data)) && NEWLINE !in Residue(data)
    decreases |data|
  {
    hide NewlineAt, Lines, Residue;
    LinesCut(data);
    var n := NewlineAt(data);
    if n == |data| {
      assert data[..n] == data;
    } else {
      var line, rest := data[..n], data[n + 1..];
      SplitRejoins(rest);
      UnlinesCons(line, Lines(rest), Residue(rest));
      assert data == line + [NEWLINE] + rest;
    }
  }

  lemma {:induction false} FirstNewline(line: seq<byte>, rest: seq<byte>)
    requires NEWLINE !in line
    ensures NewlineAt(line + [NEWLINE] + rest) == |line|
    ensures NewlineAt(line) == |line|
  {
    if line != [] {
      assert line[0] in line;
      FirstNewline(line[1..], rest);
      assert (line + [NEWLINE] + rest)[1..] == line[1..] + [NEWLINE] + rest;
    }
  }

  /** ... and it is the only way to split. */
  lemma {:induction false} SplitIsUnique(lines: seq<seq<byte>>, residue: seq<byte>)
    requires NoNewlines(lines) && NEWLINE !in residue
    ensures Lines(Unlines(lines) + residue) == lines && Residue(Unlines(lines) + residue) == residue
  {
    var data := Unlines(lines) + residue;
    if lines == [] {
      assert data == residue;
      FirstNewline(residue, []);
    } else {
      var rest := Unlines(lines[1..]) + residue;
      SplitIsUnique(lines[1..], residue);
      UnlinesCons(lines[0], lines[1..], residue);
      assert [lines[0]] + lines[1..] == lines;
      assert data == lines[0] + [NEWLINE] + rest;
      FirstNewline(lines[0], rest);
      assert data[|lines[0]| + 1..] == rest && data[..|lines[0]|] == lines[0];
    }
  }

  /**
   * The messages are the lines with a byte other than tab, line feed, form feed,
   * carriage return and space, each as often as it comes; a line holds no byte 10.
   */
  lemma MessagesHaveText(data: seq<byte>, m: seq<byte>)
    ensures multiset(Messages(data))[m]
         == if exists b | b in m :: b !in {9, 10, 12, 13, 32} then multiset(Lines(data))[m] else 0
    ensures m in Lines(data) ==> 10 !in m
  {
    FilterCount(HasText, Lines(data), m);
    if HasText(m) {
      var i :| 0 <= i < |m| && !IsBlank(m[i]);
      assert m[i] in m && m[i] !in {9, 10, 12, 13, 32};
    }
    if exists b | b in m :: b !in {9, 10, 12, 13, 32} {
      var b :| b in m && b !in {9, 10, 12, 13, 32};
      var i :| 0 <= i < |m| && m[i] == b;
      assert !IsBlank(m[i]);
    }
    SplitRejoins(data);
  }

  /** "a", a blank line, "b" and the beginning of another. */
  lemma SmallStream()
    ensures Messages([97, 10, 32, 10, 98, 10, 99]) == [[97], [98]]
    ensures Residue([97, 10, 32, 10, 98, 10, 99]) == [99]
  {
    hide Lines, Residue;
    var a: seq<byte>, blank: seq<byte>, b: seq<byte>, rest: seq<byte> := [97], [32], [98], [99];
    var lines := [a, blank, b];
    assert lines[1..] == [blank, b] && lines[1..][1..] == [b] && lines[1..][1..][1..] == [];
    assert Unlines(lines) + rest == [97, 10, 32, 10, 98, 10, 99] by {
      assert Unlines([b]) == b + [NEWLINE] + Unlines([]);
      assert Unlines([blank, b]) == blank + [NEWLINE] + Unlines([b]);
    }
    SplitIsUnique(lines, rest);
    assert lines == (([] + [a]) + [blank]) + [b];
    FilterSnoc(HasText, [], a);
    FilterSnoc(HasText, [] + [a], blank);
    FilterSnoc(HasText, ([] + [a]) + [blank], b);
    assert !IsBlank(a[0]) && IsBlank(blank[0]) && !IsBlank(b[0]);
  }

  lemma {:induction false} UnlinesAppend(a: seq<seq<byte>>, b: seq<seq<byte>>)
    ensures Unlines(a + b) == Unlines(a) + Unlines(b)
  {
    if a == [] {
      assert a + b == b;
    } else {
      UnlinesAppend(a[1..], b);
      assert (a + b)[1..] == a[1..] + b;
    }
  }

  /** Splitting the residue with what follows continues the split. */
  lemma {:induction false} SplitContinues(a: seq<byte>, b: seq<byte>)
    ensures Lines(a + b) == Lines(a) + Lines(Residue(a) + b)
    ensures Residue(a + b) == Residue(Residue(a) + b)
    ensures Messages(a + b) == Messages(a) + Messages(Residue(a) + b)
  {
    hide Lines, Residue, Unlines, HasText;
    var rest := Residue(a) + b;
    SplitRejoins(a);
    SplitRejoins(rest);
    UnlinesAppend(Lines(a), Lines(rest));
    calc {
      a + b;
      (Unlines(Lines(a)) + Residue(a)) + b;
      Unlines(Lines(a)) + rest;
      Unlines(Lines(a)) + (Unlines(Lines(rest)) + Residue(rest));
      (Unlines(Lines(a)) + Unlines(Lines(rest))) + Residue(rest);
    }
    SplitIsUnique(Lines(a) + Lines(rest), Residue(rest));
    FilterAppend(HasText, Lines(a), Lines(rest));
  }

  // --------------------------------------------------------------- the buffer

  datatype Overflow = Overflow(current: nat, limit: nat)

  /** Received bytes, or the loss of the connection. */
  datatype Input = Chunk(data: seq<byte>) | Disconnect

  predicate Overflows(buffer: seq<byte>, limit: nat, data: seq<byte>) {
    |buffer| + |data| > limit
  }

  /** What an input leaves in the buffer; a lost connection drops the partial line. */
  function BufferAfter(buffer: seq<byte>, limit: nat, input: Input): seq<byte> {
    match input
    case Chunk(data) => if Overflows(buffer, limit, data) then [] else Residue(buffer + data)
    case Disconnect => []
  }

  /** What one call returns. The overflow reports the length after clearing, which is 0. */
  function ResultOf(buffer: seq<byte>, limit: nat, data: seq<byte>): Result<seq<seq<byte>>, Overflow> {
    if Overflows(buffer, limit, data) then Err(Overflow(0, limit)) else Ok(Messages(buffer + data))
  }

  /** The buffer after a run. */
  function Buffered(limit: nat, inputs: seq<Input>): seq<byte> {
    if inputs == [] then []
    else BufferAfter(Buffered(limit, inputs[..|inputs| - 1]), limit, inputs[|inputs| - 1])
  }

  /** No call of the run overflows. */
  predicate Fits(limit: nat, inputs: seq<Input>) {
    inputs == [] ||
    var n := |inputs| - 1;
    Fits(limit, inputs[..n]) && (inputs[n].Chunk? ==> !Overflows(Buffered(limit, inputs[..n]), limit, inputs[n].data))
  }

  /** The messages a run returns. */
  function Returned(limit: nat, inputs: seq<Input>): seq<seq<byte>> {
    if inputs == [] then []
    else
      var n := |inputs| - 1;
      Returned(limit, inputs[..n]) + match inputs[n] {
        case Chunk(data) =>
          var r := ResultOf(Buffered(limit, inputs[..n]), limit, data);
          if r.Ok? then r.value else []
        case Disconnect => []
      }
  }

  /** What the open connection has brought so far. */
  function Open(inputs: seq<Input>): seq<byte> {
    if inputs == [] then []
    else match inputs[|inputs| - 1]
         case Chunk(data) => Open(inputs[..|inputs| - 1]) + data
         case Disconnect => []
  }

  /** What each closed connection brought. */
  function Closed(inputs: seq<Input>): seq<seq<byte>> {
    if inputs == [] then []
    else
      var before := inputs[..|inputs| - 1];
      if inputs[|inputs| - 1].Chunk? then Closed(before) else Closed(before) + [Open(before)]
  }

  /** The messages of some streams, each split on its own. */
  function AllMessages(streams: seq<seq<byte>>): seq<seq<byte>> {
    if streams == [] then [] else AllMessages(streams[..|streams| - 1]) + Messages(streams[|streams| - 1])
  }

  lemma NoMessages()
    ensures Messages([]) == [] && Residue([]) == []
  {
  }

  /**
   * However the streams are cut, if no call overflows the messages returned are those
   * of splitting each connection's whole stream at once, and the bytes buffered are
   * the open connection's: no line is joined across a reconnect.
   */
  lemma {:induction false} ChunksDoNotMatter(limit: nat, inputs: seq<Input>)
    requires Fits(limit, inputs)
    ensures Returned(limit, inputs) == AllMessages(Closed(inputs)) + Messages(Open(inputs))
    ensures Buffered(limit, inputs) == Residue(Open(inputs))
  {
    hide Messages, Residue;
    NoMessages();
    if inputs != [] {
      var n := |inputs| - 1;
      ChunksDoNotMatter(limit, inputs[..n]);
      if inputs[n].Chunk? {
        SplitContinues(Open(inputs[..n]), inputs[n].data);
      } else {
        assert Closed(inputs)[..|Closed(inputs)| - 1] == Closed(inputs[..n]);
      }
    }
  }

  lemma {:induction false} ResidueIsShort(data: seq<byte>)
    ensures |Residue(data)| <= |data|
    decreases |data|
  {
    if NewlineAt(data) < |data| {
      ResidueIsShort(data[NewlineAt(data) + 1..]);
    }
  }

  /** After every call, overflowing or not, the buffer is within the limit and holds no newline. */
  lemma {:induction false} BufferIsBounded(limit: nat, inputs: seq<Input>)
    ensures |Buffered(limit, inputs)| <= limit && NEWLINE !in Buffered(limit, inputs)
  {
    if inputs != [] {
      var n := |inputs| - 1;
      BufferIsBounded(limit, inputs[..n]);
      if inputs[n].Chunk? {
        var data := Buffered(limit, inputs[..n]) + inputs[n].data;
        ResidueIsShort(data);
        SplitRejoins(data);
      }
    }
  }
}
