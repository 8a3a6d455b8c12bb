/** The resumable, in-place decoder of the chunked transfer coding (`src/runtime/picohttpparser.c`),
    section 7.1 of RFC 9112. */
module Chunked {
  import opened Wrappers

  const TAB: byte := 9
  const LF: byte := 10
  const CR: byte := 13
  const SPACE: byte := 32
  const SEMICOLON: byte := 59

  const MAX_HEX: nat := 16
  const WORD: nat := 0x1_0000_0000_0000_0000

  /** `decode_hex` */
  function HexValue(b: byte): (v: Option<nat>)
    ensures v.Some? ==> v.value < 16
  {
    if 48 <= b <= 57 then Some(b - 48)
    else if 65 <= b <= 70 then Some(b - 65 + 10)
    else if 97 <= b <= 102 then Some(b - 97 + 10)
    else None
  }

  datatype Phase =
    | ChunkSize | ChunkExt | HeaderExpectLF
    | ChunkData | DataExpectCR | DataExpectLF
    | TrailersLineHead | TrailersLineMiddle

  /** What the decoder remembers between calls. */
  datatype State = State(phase: Phase, left: nat, hexes: nat, trailer: bool)

  function Start(trailer: bool): State {
    State(ChunkSize, 0, 0, trailer)
  }

  // ----- The automaton, one byte at a time -----

  datatype Move = Go(next: State) | Emit(next: State) | Finish | Reject

  function StepExt(s: State, b: byte): Move {
    if b == CR then Go(s.(phase := HeaderExpectLF, hexes := 0))
    else if b == LF then Reject
    else Go(s.(phase := ChunkExt, hexes := 0))
  }

  function Step(s: State, b: byte): Move {
    match s.phase
    case ChunkSize =>
      if HexValue(b).Some? then
        if s.hexes == MAX_HEX then Reject
        else Go(s.(left := s.left * 16 + HexValue(b).value, hexes := s.hexes + 1))
      else if s.hexes == 0 || b !in {SPACE, TAB, SEMICOLON, LF, CR} then Reject
      else StepExt(s, b)
    case ChunkExt => StepExt(s, b)
    case HeaderExpectLF =>
      if b != LF then Reject
      else if s.left > 0 then Go(s.(phase := ChunkData))
      else if s.trailer then Go(s.(phase := TrailersLineHead))
      else Finish
    case ChunkData =>
      if s.left <= 1 then Emit(s.(phase := DataExpectCR, left := 0)) else Emit(s.(left := s.left - 1))
    case DataExpectCR => if b == CR then Go(s.(phase := DataExpectLF)) else Reject
    case DataExpectLF => if b == LF then Go(s.(phase := ChunkSize)) else Reject
    case TrailersLineHead =>
      if b == CR then Go(s) else if b == LF then Finish else Go(s.(phase := TrailersLineMiddle))
    case TrailersLineMiddle => if b == LF then Go(s.(phase := TrailersLineHead)) else Go(s)
  }

  datatype Verdict = More(state: State) | Complete | Bad

  /** The verdict, the decoded bytes and the bytes left unread. */
  datatype Outcome = Outcome(verdict: Verdict, output: seq<byte>, rest: seq<byte>)

  function After(output: seq<byte>, o: Outcome): Outcome {
    o.(output := output + o.output)
  }

  function Run(s: State, input: seq<byte>): Outcome
    decreases |input|
  {
    if input == [] then Outcome(More(s), [], [])
    else
      match Step(s, input[0])
      case Go(next) => Run(next, input[1..])
      case Emit(next) => After([input[0]], Run(next, input[1..]))
      case Finish => Outcome(Complete, [], input[1..])
      case Reject => Outcome(Bad, [], input)
  }

  // ----- The invariant of the size and the data counters -----

  function Power16(n: nat): nat {
    if n == 0 then 1 else 16 * Power16(n - 1)
  }

  predicate Sound(s: State) {
    && s.hexes <= MAX_HEX
    && (s.phase.ChunkSize? ==> s.left < Power16(s.hexes))
    && (!s.phase.ChunkSize? ==> s.hexes == 0)
    && (s.phase.ChunkData? ==> s.left > 0)
    && (s.phase.DataExpectCR? || s.phase.DataExpectLF? || s.phase.TrailersLineHead? || s.phase.TrailersLineMiddle? ==> s.left == 0)
    && s.left < WORD
  }

  lemma {:induction false} PowerBound(n: nat)
    requires n <= MAX_HEX
    ensures Power16(n) <= WORD
  {
    PowerMonotone(n, MAX_HEX);
    assert Power16(16) == WORD by {
      assert Power16(4) == 0x10000;
      assert Power16(8) == 0x1_0000_0000;
      assert Power16(12) == 0x1_0000_0000_0000;
    }
  }

  lemma {:induction false} PowerMonotone(m: nat, n: nat)
    requires m <= n
    ensures 1 <= Power16(m) <= Power16(n)
    decreases n
  {
    if m < n {
      PowerMonotone(m, n - 1);
    } else if n > 0 {
      PowerMonotone(m - 1, n - 1);
    }
  }

  /** The chunk size fits a machine word, whatever the input, and each state is left as it promises. */
  lemma StepSound(s: State, b: byte)
    requires Sound(s)
    ensures Step(s, b).Go? || Step(s, b).Emit? ==> Sound(Step(s, b).next)
  {
    if s.phase.ChunkSize? && HexValue(b).Some? && s.hexes < MAX_HEX {
      PowerBound(s.hexes + 1);
      assert Power16(s.hexes + 1) == 16 * Power16(s.hexes);
    }
  }

  lemma {:induction false} RunSound(s: State, input: seq<byte>)
    requires Sound(s)
    ensures Run(s, input).verdict.More? ==> Sound(Run(s, input).verdict.state)
    decreases |input|
  {
    if input != [] {
      StepSound(s, input[0]);
      var move := Step(s, input[0]);
      if move.Go? || move.Emit? {
        RunSound(move.next, input[1..]);
      }
    }
  }

  lemma RunEmit(s: State, input: seq<byte>)
    requires s.phase.ChunkData? && input != []
    ensures Run(s, input) == After([input[0]], Run(Step(s, input[0]).next, input[1..]))
  {
  }

  /** The data of a chunk is yielded as it is. */
  lemma {:induction false} RunData(s: State, input: seq<byte>)
    requires s.phase.ChunkData? && s.left > 0
    ensures Run(s, input) == if |input| < s.left then Outcome(More(s.(left := s.left - |input|)), input, [])
                             else After(input[..s.left], Run(s.(phase := DataExpectCR, left := 0), input[s.left..]))
    decreases |input|
  {
    if input != [] {
      RunEmit(s, input);
      hide Run;
      assert input == [input[0]] + input[1..];
      if s.left > 1 {
        RunData(s.(left := s.left - 1), input[1..]);
        if |input| >= s.left {
          assert input[..s.left] == [input[0]] + input[1..][..s.left - 1];
          assert input[s.left..] == input[1..][s.left - 1..];
        }
      }
    }
  }

  // ----- Fragmentation -----

  /** A first fragment and what follows. */
  lemma {:induction false} RunConcat(s: State, a: seq<byte>, b: seq<byte>)
    ensures var first := Run(s, a);
      Run(s, a + b) == if first.verdict.More? then After(first.output, Run(first.verdict.state, b))
                       else first.(rest := first.rest + b)
    decreases |a|
  {
    if a == [] {
      assert a + b == b;
    } else {
      assert (a + b)[1..] == a[1..] + b;
      var move := Step(s, a[0]);
      if move.Go? || move.Emit? {
        RunConcat(move.next, a[1..], b);
      }
    }
  }

  function Flatten(fragments: seq<seq<byte>>): seq<byte> {
    if fragments == [] then [] else fragments[0] + Flatten(fragments[1..])
  }

  /** One call per fragment, until the verdict is in. */
  function Feed(s: State, fragments: seq<seq<byte>>): Outcome
    decreases |fragments|
  {
    if fragments == [] then Outcome(More(s), [], [])
    else
      var first := Run(s, fragments[0]);
      if first.verdict.More? then After(first.output, Feed(first.verdict.state, fragments[1..]))
      else first.(rest := first.rest + Flatten(fragments[1..]))
  }

  /** Any split of a stream decodes as the whole stream does. */
  lemma {:induction false} FragmentationIrrelevant(s: State, fragments: seq<seq<byte>>)
    ensures Feed(s, fragments) == Run(s, Flatten(fragments))
    decreases |fragments|
  {
    if fragments != [] {
      RunConcat(s, fragments[0], Flatten(fragments[1..]));
      var first := Run(s, fragments[0]);
      if first.verdict.More? {
        FragmentationIrrelevant(first.verdict.state, fragments[1..]);
      }
    }
  }

  // ----- The encoding -----

  /** A chunk: the digits of its size, an optional extension, and its data. */
  datatype Chunk = Chunk(digits: seq<byte>, ext: seq<byte>, data: seq<byte>)

  /** A body: the chunks, the last chunk, the trailer lines, and the carriage returns (one, in the
      standard's own form) before the final line feed. */
  datatype Message = Message(chunks: seq<Chunk>, lastDigits: seq<byte>, lastExt: seq<byte>, lines: seq<seq<byte>>, closing: nat)

  function HexNumber(acc: nat, digits: seq<byte>): nat
    requires AllHex(digits)
    decreases |digits|
  {
    if digits == [] then acc else HexNumber(acc * 16 + HexValue(digits[0]).value, digits[1..])
  }

  predicate AllHex(digits: seq<byte>) {
    forall i | 0 <= i < |digits| :: HexValue(digits[i]).Some?
  }

  predicate ValidSize(digits: seq<byte>, size: nat) {
    1 <= |digits| <= MAX_HEX && AllHex(digits) && HexNumber(0, digits) == size
  }

  // The digits of a size, by the grammar of section 2.3 of RFC 5234: the `v`th of these strings.

  const LOWER: string := "0123456789abcdef"
  const UPPER: string := "0123456789ABCDEF"

  predicate IsDigit(b: byte, v: nat) {
    v < 16 && (b == LOWER[v] as int || b == UPPER[v] as int)
  }

  /** Hexadecimal digits denote a number: the last one counts once, and what stands before it 16 times. */
  ghost predicate Denotes(digits: seq<byte>, n: nat)
    decreases |digits|
  {
    if digits == [] then n == 0
    else
      var last := |digits| - 1;
      exists v: nat, m: nat :: IsDigit(digits[last], v) && Denotes(digits[..last], m) && n == 16 * m + v
  }

  lemma HexValueExact(b: byte, v: nat)
    ensures HexValue(b) == Some(v) <==> IsDigit(b, v)
  {
  }

  lemma {:induction false} HexNumberLast(acc: nat, digits: seq<byte>)
    requires digits != [] && AllHex(digits)
    ensures AllHex(digits[..|digits| - 1])
    ensures HexNumber(acc, digits) == 16 * HexNumber(acc, digits[..|digits| - 1]) + HexValue(digits[|digits| - 1]).value
    decreases |digits|
  {
    var last := |digits| - 1;
    if last > 0 {
      HexNumberLast(acc * 16 + HexValue(digits[0]).value, digits[1..]);
      assert digits[1..][..last - 1] == digits[..last][1..];
    }
  }

  lemma {:induction false} NumberDenoted(digits: seq<byte>)
    requires AllHex(digits)
    ensures Denotes(digits, HexNumber(0, digits))
    decreases |digits|
  {
    if digits != [] {
      var last := |digits| - 1;
      var front := digits[..last];
      HexNumberLast(0, digits);
      var v, m := HexValue(digits[last]).value, HexNumber(0, front);
      HexValueExact(digits[last], v);
      NumberDenoted(front);
    }
  }

  lemma {:induction false} DenotedNumber(digits: seq<byte>, n: nat)
    requires Denotes(digits, n)
    ensures AllHex(digits) && HexNumber(0, digits) == n
    decreases |digits|
  {
    if digits != [] {
      var last := |digits| - 1;
      var front := digits[..last];
      hide HexNumber, HexValue, IsDigit, AllHex;
      var v: nat, m: nat :| IsDigit(digits[last], v) && Denotes(front, m) && n == 16 * m + v;
      HexValueExact(digits[last], v);
      DenotedNumber(front, m);
      AllHexLast(digits);
      HexNumberLast(0, digits);
    }
  }

  lemma AllHexLast(digits: seq<byte>)
    requires digits != [] && AllHex(digits[..|digits| - 1]) && HexValue(digits[|digits| - 1]).Some?
    ensures AllHex(digits)
  {
    assert digits == digits[..|digits| - 1] + [digits[|digits| - 1]];
  }

  /** The sizes that are decoded are those that their digits denote. */
  lemma SizeExact(digits: seq<byte>, size: nat)
    ensures ValidSize(digits, size) <==> 1 <= |digits| <= 16 && Denotes(digits, size)
  {
    if AllHex(digits) { NumberDenoted(digits); }
    if Denotes(digits, size) { DenotedNumber(digits, size); }
  }

  predicate ValidExt(ext: seq<byte>) {
    && CR !in ext && LF !in ext
    && (ext != [] ==> ext[0] in {SPACE, TAB, SEMICOLON})
  }

  predicate ValidChunk(c: Chunk) {
    c.data != [] && ValidSize(c.digits, |c.data|) && ValidExt(c.ext)
  }

  /** A trailer line, without its line feed: something other than carriage returns. */
  predicate ValidLine(line: seq<byte>) {
    LF !in line && exists i :: 0 <= i < |line| && line[i] != CR
  }

  predicate ValidMessage(m: Message) {
    && (forall c | c in m.chunks :: ValidChunk(c))
    && ValidSize(m.lastDigits, 0) && ValidExt(m.lastExt)
    && (forall l | l in m.lines :: ValidLine(l))
  }

  function Header(digits: seq<byte>, ext: seq<byte>): seq<byte> {
    digits + (ext + [CR] + [LF])
  }

  function EncodeChunk(c: Chunk): seq<byte> {
    Header(c.digits, c.ext) + (c.data + ([CR] + [LF]))
  }

  function EncodeChunks(chunks: seq<Chunk>): seq<byte> {
    if chunks == [] then [] else EncodeChunk(chunks[0]) + EncodeChunks(chunks[1..])
  }

  function DataOf(chunks: seq<Chunk>): seq<byte> {
    if chunks == [] then [] else chunks[0].data + DataOf(chunks[1..])
  }

  function Returns(n: nat): seq<byte> {
    if n == 0 then [] else [CR] + Returns(n - 1)
  }

  function EncodeTrailer(lines: seq<seq<byte>>, closing: nat): seq<byte> {
    if lines == [] then Returns(closing) + [LF] else lines[0] + [LF] + EncodeTrailer(lines[1..], closing)
  }

  /** The part of the encoding that the decoder reads: all of it, or all but the trailer section. */
  function Encode(m: Message, trailer: bool): seq<byte> {
    EncodeChunks(m.chunks) + (Header(m.lastDigits, m.lastExt) + if trailer then EncodeTrailer(m.lines, m.closing) else [])
  }

  // ----- Decoding what was encoded -----

  /** `input` takes the decoder from `s` to `t` and yields `output`. */
  predicate Drives(s: State, input: seq<byte>, output: seq<byte>, t: State) {
    Run(s, input) == Outcome(More(t), output, [])
  }

  lemma Drive(s: State, a: seq<byte>, output: seq<byte>, t: State, b: seq<byte>)
    requires Drives(s, a, output, t)
    ensures Run(s, a + b) == After(output, Run(t, b))
  {
    RunConcat(s, a, b);
  }

  lemma {:induction false} DrivesDigits(acc: nat, n: nat, trailer: bool, digits: seq<byte>)
    requires AllHex(digits) && n + |digits| <= MAX_HEX
    ensures Drives(State(ChunkSize, acc, n, trailer), digits, [], State(ChunkSize, HexNumber(acc, digits), n + |digits|, trailer))
    decreases |digits|
  {
    if digits != [] {
      DrivesDigits(acc * 16 + HexValue(digits[0]).value, n + 1, trailer, digits[1..]);
    }
  }

  lemma {:induction false} DrivesExt(s: State, ext: seq<byte>)
    requires s.phase.ChunkExt? && s.hexes == 0 && CR !in ext && LF !in ext
    ensures Drives(s, ext + [CR], [], s.(phase := HeaderExpectLF))
    decreases |ext|
  {
    if ext == [] {
      assert ext + [CR] == [CR];
    } else {
      assert (ext + [CR])[1..] == ext[1..] + [CR];
      assert ext[0] in ext;
      DrivesExt(s, ext[1..]);
    }
  }

  lemma DrivesHeader(digits: seq<byte>, ext: seq<byte>, size: nat, trailer: bool)
    requires ValidSize(digits, size) && ValidExt(ext)
    ensures Drives(Start(trailer), digits + (ext + [CR]), [], State(HeaderExpectLF, size, 0, trailer))
  {
    var s := State(ChunkSize, size, |digits|, trailer);
    DrivesDigits(0, 0, trailer, digits);
    Drive(Start(trailer), digits, [], s, ext + [CR]);
    if ext == [] {
      assert ext + [CR] == [CR];
      assert HexValue(CR).None?;
    } else {
      assert (ext + [CR])[1..] == ext[1..] + [CR];
      assert ext[0] in ext && HexValue(ext[0]).None?;
      DrivesExt(State(ChunkExt, size, 0, trailer), ext[1..]);
    }
  }

  lemma DrivesChunk(c: Chunk, trailer: bool)
    requires ValidChunk(c)
    ensures Drives(Start(trailer), EncodeChunk(c), c.data, Start(trailer))
  {
    var head, tail := c.digits + (c.ext + [CR]), c.data + ([CR] + [LF]);
    var s := State(HeaderExpectLF, |c.data|, 0, trailer);
    DrivesHeader(c.digits, c.ext, |c.data|, trailer);
    assert EncodeChunk(c) == head + ([LF] + tail);
    Drive(Start(trailer), head, [], s, [LF] + tail);
    assert ([LF] + tail)[1..] == tail;
    RunData(State(ChunkData, |c.data|, 0, trailer), c.data);
    assert c.data[|c.data|..] == [] && c.data[..|c.data|] == c.data;
    Drive(State(ChunkData, |c.data|, 0, trailer), c.data, c.data, State(DataExpectCR, 0, 0, trailer), [CR] + [LF]);
    DrivesEnd(trailer);
    assert c.data + [] == c.data;
  }

  lemma DrivesEnd(trailer: bool)
    ensures Drives(State(DataExpectCR, 0, 0, trailer), [CR] + [LF], [], Start(trailer))
  {
    assert ([CR] + [LF])[1..] == [LF];
    assert [LF][1..] == [];
    assert Run(State(DataExpectLF, 0, 0, trailer), [LF]) == Run(Start(trailer), []);
  }

  lemma {:induction false} DrivesChunks(chunks: seq<Chunk>, trailer: bool)
    requires forall c | c in chunks :: ValidChunk(c)
    ensures Drives(Start(trailer), EncodeChunks(chunks), DataOf(chunks), Start(trailer))
    decreases |chunks|
  {
    if chunks != [] {
      DrivesChunk(chunks[0], trailer);
      DrivesChunks(chunks[1..], trailer);
      Drive(Start(trailer), EncodeChunk(chunks[0]), chunks[0].data, Start(trailer), EncodeChunks(chunks[1..]));
    }
  }

  /** A line of the trailer section, from its head or from its middle. */
  lemma {:induction false} DrivesLine(s: State, line: seq<byte>)
    requires LF !in line
    requires s.phase.TrailersLineMiddle? || (s.phase.TrailersLineHead? && exists i :: 0 <= i < |line| && line[i] != CR)
    ensures Drives(s, line + [LF], [], s.(phase := TrailersLineHead))
    decreases |line|
  {
    if line == [] {
      assert line + [LF] == [LF] && [LF][1..] == [];
    } else {
      assert (line + [LF])[1..] == line[1..] + [LF];
      assert line[0] in line;
      var next := Step(s, line[0]).next;
      if next.phase.TrailersLineHead? {
        var i :| 0 <= i < |line| && line[i] != CR;
        assert line[1..][i - 1] != CR;
      }
      DrivesLine(next, line[1..]);
    }
  }

  lemma {:induction false} ReturnsFinish(s: State, n: nat, rest: seq<byte>)
    requires s.phase.TrailersLineHead?
    ensures Run(s, Returns(n) + [LF] + rest) == Outcome(Complete, [], rest)
    decreases n
  {
    if n == 0 {
      assert Returns(0) + [LF] + rest == [LF] + rest;
    } else {
      ReturnsFinish(s, n - 1, rest);
      assert (Returns(n) + [LF] + rest)[1..] == Returns(n - 1) + [LF] + rest;
    }
  }

  lemma {:induction false} TrailerFinishes(s: State, lines: seq<seq<byte>>, closing: nat, rest: seq<byte>)
    requires s.phase.TrailersLineHead? && forall l | l in lines :: ValidLine(l)
    ensures Run(s, EncodeTrailer(lines, closing) + rest) == Outcome(Complete, [], rest)
    decreases |lines|
  {
    if lines == [] {
      ReturnsFinish(s, closing, rest);
    } else {
      var tail := EncodeTrailer(lines[1..], closing);
      assert ValidLine(lines[0]);
      DrivesLine(s, lines[0]);
      Drive(s, lines[0] + [LF], [], s, tail + rest);
      assert lines[0] + [LF] + tail + rest == lines[0] + [LF] + (tail + rest);
      TrailerFinishes(s, lines[1..], closing, rest);
    }
  }

  /** The decoder inverts the encoding, and stops right behind it. */
  lemma DecodeEncode(m: Message, trailer: bool, rest: seq<byte>)
    requires ValidMessage(m)
    ensures Run(Start(trailer), Encode(m, trailer) + rest) == Outcome(Complete, DataOf(m.chunks), rest)
  {
    hide EncodeTrailer, EncodeChunks, DataOf, HexNumber;
    var tail := if trailer then EncodeTrailer(m.lines, m.closing) else [];
    var head := m.lastDigits + (m.lastExt + [CR]);
    var s := State(HeaderExpectLF, 0, 0, trailer);
    DrivesChunks(m.chunks, trailer);
    Drive(Start(trailer), EncodeChunks(m.chunks), DataOf(m.chunks), Start(trailer), head + ([LF] + (tail + rest)));
    assert Encode(m, trailer) + rest == EncodeChunks(m.chunks) + (head + ([LF] + (tail + rest)));
    DrivesHeader(m.lastDigits, m.lastExt, 0, trailer);
    Drive(Start(trailer), head, [], s, [LF] + (tail + rest));
    LastEnds(m, trailer, rest);
    hide Run;
  }

  /** Behind the size of the last chunk. */
  lemma LastEnds(m: Message, trailer: bool, rest: seq<byte>)
    requires ValidMessage(m)
    ensures var tail := if trailer then EncodeTrailer(m.lines, m.closing) else [];
      Run(State(HeaderExpectLF, 0, 0, trailer), [LF] + (tail + rest)) == Outcome(Complete, [], rest)
  {
    hide EncodeTrailer;
    var tail := if trailer then EncodeTrailer(m.lines, m.closing) else [];
    assert ([LF] + (tail + rest))[1..] == tail + rest;
    if trailer {
      TrailerFinishes(State(TrailersLineHead, 0, 0, trailer), m.lines, m.closing, rest);
    } else {
      assert tail + rest == rest;
    }
  }

  // ----- Only encodings decode -----

  lemma PrependDigit(acc: nat, digit: byte, digits: seq<byte>)
    requires HexValue(digit).Some? && AllHex(digits)
    ensures AllHex([digit] + digits)
    ensures HexNumber(acc, [digit] + digits) == HexNumber(acc * 16 + HexValue(digit).value, digits)
  {
    assert ([digit] + digits)[1..] == digits;
  }

  lemma {:induction false} DigitsOf(s: State, input: seq<byte>) returns (digits: seq<byte>, tail: seq<byte>)
    requires s.phase.ChunkSize? && s.hexes <= MAX_HEX && Run(s, input).verdict.Complete?
    ensures input == digits + tail && AllHex(digits) && s.hexes + |digits| <= MAX_HEX
    ensures tail != [] && HexValue(tail[0]).None? && s.hexes + |digits| > 0
    ensures Run(s, input) == Run(s.(left := HexNumber(s.left, digits), hexes := s.hexes + |digits|), tail)
    decreases |input|
  {
    if HexValue(input[0]).Some? {
      var next := Step(s, input[0]).next;
      var digits', tail' := DigitsOf(next, input[1..]);
      digits, tail := [input[0]] + digits', tail';
      PrependDigit(s.left, input[0], digits');
      assert input == [input[0]] + input[1..];
    } else {
      digits, tail := [], input;
      assert input == [] + input;
    }
  }

  lemma {:induction false} ExtOf(s: State, input: seq<byte>) returns (ext: seq<byte>, tail: seq<byte>)
    requires s.phase.ChunkExt? && s.hexes == 0 && Run(s, input).verdict.Complete?
    ensures input == ext + [CR] + tail && CR !in ext && LF !in ext
    ensures Run(s, input) == Run(s.(phase := HeaderExpectLF), tail)
    decreases |input|
  {
    if input[0] == CR {
      ext, tail := [], input[1..];
    } else {
      var ext', tail' := ExtOf(s, input[1..]);
      ext, tail := [input[0]] + ext', tail';
      assert input == [input[0]] + input[1..];
    }
  }

  lemma HeaderOf(input: seq<byte>, trailer: bool) returns (digits: seq<byte>, ext: seq<byte>, tail: seq<byte>)
    requires Run(Start(trailer), input).verdict.Complete?
    ensures input == Header(digits, ext) + tail && AllHex(digits) && 1 <= |digits| <= MAX_HEX && ValidExt(ext)
    ensures Run(Start(trailer), input) == Run(State(HeaderExpectLF, HexNumber(0, digits), 0, trailer), [LF] + tail)
  {
    var digits', after := DigitsOf(Start(trailer), input);
    digits := digits';
    var s := State(ChunkExt, HexNumber(0, digits), 0, trailer);
    var rest;
    if after[0] == CR {
      ext, rest := [], after[1..];
    } else {
      var ext', rest' := ExtOf(s, after[1..]);
      ext, rest := [after[0]] + ext', rest';
    }
    hide Run, HexNumber, AllHex, StepExt;
    RunCompletes(s.(phase := HeaderExpectLF), rest);
    tail := rest[1..];
    HeaderOrder(digits, ext, after, rest);
  }

  lemma HeaderOrder(digits: seq<byte>, ext: seq<byte>, after: seq<byte>, rest: seq<byte>)
    requires after == ext + [CR] + rest && rest != [] && rest[0] == LF
    ensures digits + after == digits + (ext + [CR] + [LF]) + rest[1..] && rest == [LF] + rest[1..]
  {
  }

  lemma {:induction false} LineOf(s: State, input: seq<byte>) returns (line: seq<byte>, tail: seq<byte>)
    requires s.phase.TrailersLineMiddle? && Run(s, input).verdict.Complete?
    ensures input == line + [LF] + tail && LF !in line
    ensures Run(s, input) == Run(s.(phase := TrailersLineHead), tail)
    decreases |input|
  {
    if input[0] == LF {
      line, tail := [], input[1..];
    } else {
      var line', tail' := LineOf(s, input[1..]);
      line, tail := [input[0]] + line', tail';
      assert input == [input[0]] + input[1..];
    }
  }

  /** The trailer section, with `held` carriage returns read already at the head of a line. */
  lemma {:induction false} TrailerOf(s: State, held: nat, input: seq<byte>) returns (lines: seq<seq<byte>>, closing: nat)
    requires s.phase.TrailersLineHead? && Run(s, input).verdict.Complete?
    ensures forall l | l in lines :: ValidLine(l)
    ensures Returns(held) + input == EncodeTrailer(lines, closing) + Run(s, input).rest && Run(s, input).output == []
    decreases |input|
  {
    assert input == [input[0]] + input[1..];
    if input[0] == CR {
      ReturnsShift(held, input[1..]);
      lines, closing := TrailerOf(s, held + 1, input[1..]);
    } else if input[0] == LF {
      lines, closing := [], held;
    } else {
      var line, tail := LineOf(s.(phase := TrailersLineMiddle), input[1..]);
      var lines', closing' := TrailerOf(s, 0, tail);
      var first := Returns(held) + [input[0]] + line;
      ReturnsOnly(held);
      assert first[held] == input[0] != CR;
      lines, closing := [first] + lines', closing';
      assert Returns(0) + tail == tail && lines[1..] == lines';
      TrailerOrder(Returns(held), input, line, tail, EncodeTrailer(lines', closing), Run(s, input).rest);
    }
  }

  lemma TrailerOrder(held: seq<byte>, input: seq<byte>, line: seq<byte>, tail: seq<byte>, encoded: seq<byte>, rest: seq<byte>)
    requires input != [] && input[1..] == line + [LF] + tail && tail == encoded + rest
    ensures held + input == held + [input[0]] + line + [LF] + encoded + rest
  {
    assert input == [input[0]] + input[1..];
  }

  lemma {:induction false} ReturnsOnly(n: nat)
    ensures |Returns(n)| == n && forall i | 0 <= i < n :: Returns(n)[i] == CR
  {
    if n > 0 {
      ReturnsOnly(n - 1);
    }
  }

  lemma ReturnsShift(n: nat, tail: seq<byte>)
    ensures Returns(n + 1) + tail == Returns(n) + ([CR] + tail)
  {
    ReturnsOnly(n);
    ReturnsOnly(n + 1);
  }

  /** Whatever input the decoder completes is the encoding of what it yields, and the rest. */
  lemma {:induction false} EncodeDecoded(input: seq<byte>, trailer: bool) returns (m: Message)
    requires Run(Start(trailer), input).verdict.Complete?
    ensures ValidMessage(m)
    ensures var o := Run(Start(trailer), input); input == Encode(m, trailer) + o.rest && DataOf(m.chunks) == o.output
    decreases |input|
  {
    var o := Run(Start(trailer), input);
    var digits, ext, tail := HeaderOf(input, trailer);
    var size := HexNumber(0, digits);
    assert ([LF] + tail)[1..] == tail;
    if size > 0 {
      var chunk, after := ChunkOf(digits, ext, tail, trailer);
      var m' := EncodeDecoded(after, trailer);
      m := Behind(chunk, m', trailer, o.rest);
    } else if trailer {
      var lines, closing := TrailerOf(State(TrailersLineHead, 0, 0, true), 0, tail);
      m := Message([], digits, ext, lines, closing);
      assert Returns(0) + tail == tail;
      OnlyLast(m, o.rest);
    } else {
      m := Message([], digits, ext, [], 0);
      OnlyLast(m, o.rest);
    }
  }

  lemma OnlyLast(m: Message, rest: seq<byte>)
    requires m.chunks == []
    ensures Encode(m, true) + rest == Header(m.lastDigits, m.lastExt) + (EncodeTrailer(m.lines, m.closing) + rest)
    ensures Encode(m, false) + rest == Header(m.lastDigits, m.lastExt) + rest
  {
    hide EncodeTrailer;
  }

  lemma Behind(chunk: Chunk, m: Message, trailer: bool, rest: seq<byte>) returns (longer: Message)
    requires ValidChunk(chunk) && ValidMessage(m)
    ensures ValidMessage(longer) && DataOf(longer.chunks) == chunk.data + DataOf(m.chunks)
    ensures Encode(longer, trailer) + rest == EncodeChunk(chunk) + (Encode(m, trailer) + rest)
  {
    hide EncodeTrailer, EncodeChunk, ValidChunk, ValidLine;
    longer := m.(chunks := [chunk] + m.chunks);
    assert longer.chunks[1..] == m.chunks;
    assert Encode(longer, trailer) == EncodeChunk(chunk) + Encode(m, trailer);
  }

  lemma ChunkOf(digits: seq<byte>, ext: seq<byte>, tail: seq<byte>, trailer: bool) returns (chunk: Chunk, after: seq<byte>)
    requires AllHex(digits) && 1 <= |digits| <= MAX_HEX && ValidExt(ext) && HexNumber(0, digits) > 0
    requires Run(State(ChunkData, HexNumber(0, digits), 0, trailer), tail).verdict.Complete?
    ensures ValidChunk(chunk) && Header(digits, ext) + tail == EncodeChunk(chunk) + after
    ensures Run(State(ChunkData, HexNumber(0, digits), 0, trailer), tail) == After(chunk.data, Run(Start(trailer), after))
    ensures |after| < |tail|
  {
    hide AllHex, ValidExt, HexNumber, Header;
    var size := HexNumber(0, digits);
    RunData(State(ChunkData, size, 0, trailer), tail);
    var end := tail[size..];
    EndOf(end, trailer);
    chunk, after := Chunk(digits, ext, tail[..size]), end[2..];
    assert tail == chunk.data + end;
    ChunkOrder(Header(digits, ext), chunk.data, after);
  }

  /** What ends a chunk's data. */
  lemma EndOf(end: seq<byte>, trailer: bool)
    requires Run(State(DataExpectCR, 0, 0, trailer), end).verdict.Complete?
    ensures |end| >= 2 && end == [CR] + [LF] + end[2..]
    ensures Run(State(DataExpectCR, 0, 0, trailer), end) == Run(Start(trailer), end[2..])
  {
    hide Run;
    RunCompletes(State(DataExpectCR, 0, 0, trailer), end);
    RunCompletes(State(DataExpectLF, 0, 0, trailer), end[1..]);
    TwoBytes(end, CR, LF);
  }

  lemma TwoBytes(s: seq<byte>, a: byte, b: byte)
    requires |s| >= 2 && s[0] == a && s[1..][0] == b
    ensures s == [a] + [b] + s[2..] && s[1..][1..] == s[2..]
  {
  }

  lemma RunCompletes(s: State, input: seq<byte>)
    requires Run(s, input).verdict.Complete?
    ensures input != [] && !Step(s, input[0]).Reject?
    ensures Step(s, input[0]).Go? ==> Run(s, input) == Run(Step(s, input[0]).next, input[1..])
  {
    hide Step;
  }

  lemma ChunkOrder(header: seq<byte>, data: seq<byte>, after: seq<byte>)
    ensures header + (data + ([CR] + [LF] + after)) == header + (data + ([CR] + [LF])) + after
  {
  }

  // ----- When the decoder refuses -----

  /** The phases in the order in which they can lead to an end. */
  function Ahead(s: State): nat {
    match s.phase
    case ChunkSize => if s.hexes == 0 then 4 else 10
    case ChunkExt => 9
    case HeaderExpectLF => if s.left == 0 then 3 else 8
    case ChunkData => 7
    case DataExpectCR => 6
    case DataExpectLF => 5
    case TrailersLineHead => 1
    case TrailersLineMiddle => 2
  }

  lemma Onto(s: State, b: byte, tail: seq<byte>)
    requires Step(s, b).Go?
    ensures Run(s, [b] + tail) == Run(Step(s, b).next, tail)
  {
    assert ([b] + tail)[1..] == tail;
  }

  /** From wherever the decoder waits for more, some input leads to the end. */
  lemma {:induction false} CanEnd(s: State) returns (tail: seq<byte>)
    requires Sound(s)
    ensures Run(s, tail).verdict.Complete?
    decreases Ahead(s), 1
  {
    hide Run;
    match s.phase
    case ChunkData =>
      var rest := CanEnd(s.(phase := DataExpectCR, left := 0));
      var data := seq(s.left, _ => 0 as byte);
      tail := data + rest;
      RunData(s, tail);
      assert tail[s.left..] == rest;
    case TrailersLineHead => tail := [LF]; EndsAt(s, LF);
    case ChunkSize =>
      if s.hexes == 0 { tail := LastChunk(s); } else { tail := EndBehind(s, CR); }
    case ChunkExt => tail := EndBehind(s, CR);
    case HeaderExpectLF =>
      if s.left == 0 && !s.trailer { tail := [LF]; EndsAt(s, LF); } else { tail := EndBehind(s, LF); }
    case DataExpectCR => tail := EndBehind(s, CR);
    case DataExpectLF => tail := EndBehind(s, LF);
    case TrailersLineMiddle => tail := EndBehind(s, LF);
  }

  lemma {:induction false} EndBehind(s: State, b: byte) returns (tail: seq<byte>)
    requires Sound(s) && Step(s, b).Go? && Ahead(Step(s, b).next) < Ahead(s)
    ensures Run(s, tail).verdict.Complete?
    decreases Ahead(s), 0
  {
    hide Run;
    StepSound(s, b);
    var rest := CanEnd(Step(s, b).next);
    Onto(s, b, rest);
    tail := [b] + rest;
  }

  lemma EndsAt(s: State, b: byte)
    requires Step(s, b).Finish?
    ensures Run(s, [b]).verdict.Complete?
  {
  }

  /** The last chunk. */
  lemma {:induction false} LastChunk(s: State) returns (tail: seq<byte>)
    requires Sound(s) && s.phase.ChunkSize? && s.hexes == 0
    ensures Run(s, tail).verdict.Complete?
    decreases Ahead(s), 0
  {
    hide Run;
    var zero: byte := 48;
    var sized := s.(left := 0, hexes := 1);
    assert HexValue(zero) == Some(0) && Step(s, zero) == Go(sized);
    var ended := sized.(phase := HeaderExpectLF, hexes := 0);
    assert Step(sized, CR) == Go(ended);
    var rest := CanEnd(ended);
    Onto(sized, CR, rest);
    Onto(s, zero, [CR] + rest);
    tail := [zero] + ([CR] + rest);
  }

  /** The decoder refuses an input exactly if nothing that may follow makes it an encoding: it never waits
      in vain, and never gives up too early. */
  lemma RefusesHopeless(s: State, input: seq<byte>)
    requires Sound(s)
    ensures Run(s, input).verdict.Bad? <==> forall more :: !Run(s, input + more).verdict.Complete?
  {
    forall more ensures Run(s, input).verdict.Bad? ==> !Run(s, input + more).verdict.Complete? { RunConcat(s, input, more); }
    if Run(s, input).verdict.More? {
      RunSound(s, input);
      var more := CanEnd(Run(s, input).verdict.state);
      RunConcat(s, input, more);
      assert Run(s, input + more).verdict.Complete?;
    } else if Run(s, input).verdict.Complete? {
      assert input + [] == input;
      assert Run(s, input + []).verdict.Complete?;
    }
  }

  // ----- The decoder, in place -----

  lemma MovedData(was: seq<byte>, now: seq<byte>, start: nat, from: nat, taken: nat, bufsz: nat)
    requires start <= from && from + taken <= bufsz <= |was| == |now|
    requires now[start..start + taken] == was[from..from + taken] && now[start + taken..] == was[start + taken..]
    ensures now[start..start + taken] == was[from..bufsz][..taken] && now[from + taken..] == was[from + taken..]
    ensures now[from + taken..bufsz] == was[from..bufsz][taken..]
    ensures taken == bufsz - from ==> was[from..bufsz][..taken] == was[from..bufsz] && now[from + taken..bufsz] == []
  {
    assert now[from + taken..] == now[start + taken..][from - start..] && was[from + taken..] == was[start + taken..][from - start..];
    assert now[from + taken..bufsz] == now[from + taken..][..bufsz - from - taken];
    assert was[from..bufsz][taken..] == was[from + taken..][..bufsz - from - taken];
  }

  /** How a phase of the decoder ends: on to the next phase, or out of the call. */
  datatype Stop = Continue | Incomplete | Finished | Failed

  function VerdictOf(stop: Stop, s: State): Verdict
    requires !stop.Continue?
  {
    match stop
    case Incomplete => More(s)
    case Finished => Complete
    case Failed => Bad
  }

  /** From `s` at the head of `input`, the decoder has come to `t` with `rest` before it. */
  predicate Reached(s: State, input: seq<byte>, output: seq<byte>, t: State, rest: seq<byte>, stop: Stop) {
    Run(s, input) == if stop.Continue? then After(output, Run(t, rest)) else Outcome(VerdictOf(stop, t), output, rest)
  }

  lemma Onward(s: State, input: seq<byte>, output: seq<byte>, t: State, ahead: seq<byte>, more: seq<byte>, w: State,
               rest: seq<byte>, stop: Stop)
    requires Reached(s, input, output, t, ahead, Continue) && Reached(t, ahead, more, w, rest, stop)
    ensures Reached(s, input, output + more, w, rest, stop)
  {
    hide Run;
    assert stop.Continue? ==> output + (more + Run(w, rest).output) == output + more + Run(w, rest).output;
  }

  lemma Begin(s: State, input: seq<byte>)
    ensures Reached(s, input, [], s, input, Continue)
  {
    assert [] + Run(s, input).output == Run(s, input).output;
  }

  function Rank(phase: Phase): nat {
    if phase.ChunkSize? then 1 else 0
  }

  /** The result of a call: bytes left unread, incomplete (-2), or an error (-1). */
  datatype Ret = Done(unread: nat) | Partial | Invalid

  const OVERHEAD_FLOOR: nat := 100 * 1024

  class Decoder {
    var bytesLeft: nat
    var consumeTrailer: bool
    var hexCount: nat
    var phase: Phase
    var totalRead: nat
    var totalOverhead: nat

    ghost function Mode(): State
      reads this
    {
      State(phase, bytesLeft, hexCount, consumeTrailer)
    }

    constructor (consumeTrailer: bool)
      ensures Mode() == Start(consumeTrailer) && totalRead == totalOverhead == 0
    {
      bytesLeft, hexCount, phase := 0, 0, ChunkSize;
      this.consumeTrailer := consumeTrailer;
      totalRead, totalOverhead := 0, 0;
    }

    method ReadSize(buf: array<byte>, start: nat, bufsz: nat) returns (src: nat, stop: Stop)
      requires start <= bufsz <= buf.Length && Sound(Mode()) && phase.ChunkSize?
      modifies this`bytesLeft, this`hexCount, this`phase
      ensures start <= src <= bufsz && Sound(Mode())
      ensures Reached(old(Mode()), buf[start..bufsz], [], Mode(), buf[src..bufsz], stop)
      ensures stop.Continue? ==> phase.ChunkExt?
    {
      hide Power16;
      src := start;
      while true
        invariant start <= src <= bufsz && Sound(Mode()) && phase.ChunkSize?
        invariant Run(old(Mode()), buf[start..bufsz]) == Run(Mode(), buf[src..bufsz])
        decreases bufsz - src
      {
        if src == bufsz { return src, Incomplete; }
        assert buf[src..bufsz][1..] == buf[src + 1..bufsz];
        var v := HexValue(buf[src]);
        if v.None? {
          if hexCount == 0 { return src, Failed; }
          if buf[src] !in {SPACE, TAB, SEMICOLON, LF, CR} { return src, Failed; }
          break;
        }
        if hexCount == MAX_HEX { return src, Failed; }
        StepSound(Mode(), buf[src]);
        bytesLeft := bytesLeft * 16 + v.value;
        hexCount := hexCount + 1;
        src := src + 1;
      }
      hexCount, phase := 0, ChunkExt;
      stop := Continue;
    }

    method SkipExt(buf: array<byte>, start: nat, bufsz: nat) returns (src: nat, stop: Stop)
      requires start <= bufsz <= buf.Length && Sound(Mode()) && phase.ChunkExt?
      modifies this`phase
      ensures start <= src <= bufsz && Sound(Mode())
      ensures Reached(old(Mode()), buf[start..bufsz], [], Mode(), buf[src..bufsz], stop)
      ensures stop.Continue? ==> start < src
    {
      src := start;
      while true
        invariant start <= src <= bufsz && Mode() == old(Mode())
        invariant Run(Mode(), buf[start..bufsz]) == Run(Mode(), buf[src..bufsz])
        decreases bufsz - src
      {
        if src == bufsz { return src, Incomplete; }
        assert buf[src..bufsz][1..] == buf[src + 1..bufsz];
        if buf[src] == CR { break; }
        if buf[src] == LF { return src, Failed; }
        src := src + 1;
      }
      src := src + 1;
      phase := HeaderExpectLF;
      stop := Continue;
    }

    method EndHeader(buf: array<byte>, start: nat, bufsz: nat) returns (src: nat, stop: Stop)
      requires start <= bufsz <= buf.Length && Sound(Mode()) && phase.HeaderExpectLF?
      modifies this`phase
      ensures start <= src <= bufsz && Sound(Mode())
      ensures Reached(old(Mode()), buf[start..bufsz], [], Mode(), buf[src..bufsz], stop)
      ensures stop.Continue? ==> start < src
    {
      src := start;
      if src == bufsz { return src, Incomplete; }
      if buf[src] != LF { return src, Failed; }
      assert buf[src..bufsz][1..] == buf[src + 1..bufsz];
      src := src + 1;
      if bytesLeft == 0 {
        if !consumeTrailer { return src, Finished; }
        phase := TrailersLineHead;
      } else {
        phase := ChunkData;
      }
      stop := Continue;
    }

    /** Moves what there is of a chunk's data down to `start`, over bytes that were read before. */
    method MoveData(buf: array<byte>, start: nat, from: nat, bufsz: nat) returns (dst: nat, src: nat, stop: Stop)
      requires start <= from <= bufsz <= buf.Length && Sound(Mode()) && phase.ChunkData?
      modifies this`bytesLeft, this`phase, buf
      ensures start <= dst <= src <= bufsz && from <= src && Sound(Mode())
      ensures buf[..start] == old(buf[..start]) && buf[src..] == old(buf[src..])
      ensures Reached(old(Mode()), old(buf[from..bufsz]), buf[start..dst], Mode(), buf[src..bufsz], stop)
      ensures stop.Continue? ==> from < src
    {
      hide Run, Step;
      var avail := bufsz - from;
      RunData(Mode(), buf[from..bufsz]);
      var taken := if avail < bytesLeft then avail else bytesLeft;
      MoveDown(buf, start, from, taken, bufsz);
      dst, src := start + taken, from + taken;
      if avail < bytesLeft {
        bytesLeft := bytesLeft - avail;
        return dst, src, Incomplete;
      }
      bytesLeft, phase := 0, DataExpectCR;
      stop := Continue;
    }

    method EndData(buf: array<byte>, start: nat, bufsz: nat) returns (src: nat, stop: Stop)
      requires start <= bufsz <= buf.Length && Sound(Mode()) && (phase.DataExpectCR? || phase.DataExpectLF?)
      modifies this`phase
      ensures start <= src <= bufsz && Sound(Mode())
      ensures Reached(old(Mode()), buf[start..bufsz], [], Mode(), buf[src..bufsz], stop)
      ensures stop.Continue? ==> start < src
    {
      src := start;
      if phase.DataExpectCR? {
        if src == bufsz { return src, Incomplete; }
        if buf[src] != CR { return src, Failed; }
        assert buf[src..bufsz][1..] == buf[src + 1..bufsz];
        src := src + 1;
        phase := DataExpectLF;
      }
      if src == bufsz { return src, Incomplete; }
      if buf[src] != LF { return src, Failed; }
      assert buf[src..bufsz][1..] == buf[src + 1..bufsz];
      src := src + 1;
      phase := ChunkSize;
      stop := Continue;
    }

    method SkipLineHead(buf: array<byte>, start: nat, bufsz: nat) returns (src: nat, stop: Stop)
      requires start <= bufsz <= buf.Length && Sound(Mode()) && phase.TrailersLineHead?
      modifies this`phase
      ensures start <= src <= bufsz && Sound(Mode())
      ensures Reached(old(Mode()), buf[start..bufsz], [], Mode(), buf[src..bufsz], stop)
      ensures stop.Continue? ==> start < src
    {
      src := start;
      while true
        invariant start <= src <= bufsz && Mode() == old(Mode())
        invariant Run(Mode(), buf[start..bufsz]) == Run(Mode(), buf[src..bufsz])
        decreases bufsz - src
      {
        if src == bufsz { return src, Incomplete; }
        assert buf[src..bufsz][1..] == buf[src + 1..bufsz];
        if buf[src] != CR { break; }
        src := src + 1;
      }
      src := src + 1;
      if buf[src - 1] == LF { return src, Finished; }
      phase := TrailersLineMiddle;
      stop := Continue;
    }

    method SkipLine(buf: array<byte>, start: nat, bufsz: nat) returns (src: nat, stop: Stop)
      requires start <= bufsz <= buf.Length && Sound(Mode()) && phase.TrailersLineMiddle?
      modifies this`phase
      ensures start <= src <= bufsz && Sound(Mode())
      ensures Reached(old(Mode()), buf[start..bufsz], [], Mode(), buf[src..bufsz], stop)
      ensures stop.Continue? ==> start < src
    {
      src := start;
      while true
        invariant start <= src <= bufsz && Mode() == old(Mode())
        invariant Run(Mode(), buf[start..bufsz]) == Run(Mode(), buf[src..bufsz])
        decreases bufsz - src
      {
        if src == bufsz { return src, Incomplete; }
        assert buf[src..bufsz][1..] == buf[src + 1..bufsz];
        if buf[src] == LF { break; }
        src := src + 1;
      }
      src := src + 1;
      phase := TrailersLineHead;
      stop := Continue;
    }

    /** One turn of the decoder's `switch`. */
    method Turn(buf: array<byte>, start: nat, from: nat, bufsz: nat) returns (dst: nat, src: nat, stop: Stop)
      requires start <= from <= bufsz <= buf.Length && Sound(Mode())
      modifies this`bytesLeft, this`hexCount, this`phase, buf
      ensures start <= dst <= src <= bufsz && from <= src && Sound(Mode())
      ensures buf[..start] == old(buf[..start]) && buf[src..] == old(buf[src..])
      ensures Reached(old(Mode()), old(buf[from..bufsz]), buf[start..dst], Mode(), buf[src..bufsz], stop)
      ensures stop.Continue? ==> from < src || (old(phase).ChunkSize? && !phase.ChunkSize?)
    {
      hide Run, Sound;
      dst := start;
      assert buf[start..start] == [];
      match phase {
        case ChunkSize => src, stop := ReadSize(buf, from, bufsz);
        case ChunkExt => src, stop := SkipExt(buf, from, bufsz);
        case HeaderExpectLF => src, stop := EndHeader(buf, from, bufsz);
        case ChunkData => dst, src, stop := MoveData(buf, start, from, bufsz);
        case DataExpectCR => src, stop := EndData(buf, from, bufsz);
        case DataExpectLF => src, stop := EndData(buf, from, bufsz);
        case TrailersLineHead => src, stop := SkipLineHead(buf, from, bufsz);
        case TrailersLineMiddle => src, stop := SkipLine(buf, from, bufsz);
      }
    }

    /** The decoder's endless loop, up to its exit: the output lies before `dst` and what was not read
        lies where it was. */
    method Scan(buf: array<byte>, bufsz: nat) returns (dst: nat, src: nat, stop: Stop)
      requires bufsz <= buf.Length && Sound(Mode())
      modifies this`bytesLeft, this`hexCount, this`phase, buf
      ensures dst <= src <= bufsz && Sound(Mode()) && !stop.Continue?
      ensures buf[src..] == old(buf[src..])
      ensures Reached(old(Mode()), old(buf[..bufsz]), buf[..dst], Mode(), buf[src..bufsz], stop)
    {
      hide Run, Sound;
      ghost var start, input := Mode(), buf[..bufsz];
      dst, src, stop := 0, 0, Continue;
      assert buf[0..bufsz] == input && buf[..0] == [];
      Begin(start, input);
      while stop.Continue?
        invariant dst <= src <= bufsz && Sound(Mode())
        invariant buf[src..] == old(buf[src..])
        invariant Reached(start, input, buf[..dst], Mode(), buf[src..bufsz], stop)
        decreases stop.Continue?, bufsz - src, Rank(phase)
      {
        ghost var mode, output, ahead, was := Mode(), buf[..dst], buf[src..bufsz], buf[src..];
        ghost var from := src;
        dst, src, stop := Turn(buf, dst, src, bufsz);
        assert buf[..dst] == output + buf[|output|..dst];
        assert buf[src..] == was[src - from..];
        Onward(start, input, output, mode, ahead, buf[|output|..dst], Mode(), buf[src..bufsz], stop);
      }
    }

    /** `phr_decode_chunked`: the first `bufsz` bytes of `buf` are decoded where they are.  What is left
        of them unread ends up right behind the `size` bytes of output. */
    method Decode(buf: array<byte>, bufsz: nat) returns (ret: Ret, size: nat)
      requires bufsz <= buf.Length && Sound(Mode())
      modifies this, buf
      ensures Sound(Mode()) && buf[bufsz..] == old(buf[bufsz..])
      ensures var o := Run(old(Mode()), old(buf[..bufsz]));
        && size == |o.output| && size + |o.rest| <= bufsz
        && buf[..size] == o.output && buf[size..size + |o.rest|] == o.rest
        && (o.verdict.Complete? ==> ret == Done(|o.rest|))
        && (o.verdict.Bad? ==> ret == Invalid)
        && (o.verdict.More? ==> Mode() == o.verdict.state && ret == if Wasteful() then Invalid else Partial)
        && totalOverhead == (if o.verdict.More? then (old(totalOverhead) + bufsz - size) % WORD else old(totalOverhead))
      ensures totalRead == (old(totalRead) + bufsz) % WORD
    {
      hide Run, Sound;
      totalRead := (totalRead + bufsz) % WORD;
      var dst, src, stop := Scan(buf, bufsz);
      ghost var rest, now := buf[src..bufsz], buf[..];
      assert now[bufsz..] == now[src..][bufsz - src..] == old(buf[bufsz..]);
      if dst != src {
        Memmove(buf, dst, src, bufsz - src);
        assert buf[bufsz..] == buf[dst + bufsz - src..][src - dst..] == now[dst + bufsz - src..][src - dst..];
      }
      size := dst;
      match stop {
        case Finished => ret := Done(bufsz - src);
        case Failed => ret := Invalid;
        case Incomplete =>
          totalOverhead := (totalOverhead + bufsz - dst) % WORD;
          ret := if totalOverhead >= OVERHEAD_FLOOR && (totalRead - totalOverhead) % WORD < totalRead / 4 then Invalid else Partial;
      }
    }

    /** The calls for a stream that arrives in fragments, each decoded in a buffer of its own, until one of
        them ends it: what the buffers are left with makes up the output of the whole stream, unless the
        guard cuts in, and then it is a first part of that. */
    method DecodeAll(fragments: seq<seq<byte>>) returns (ret: Ret, output: seq<byte>, unread: seq<byte>, ghost guarded: bool)
      requires Sound(Mode())
      modifies this
      ensures Sound(Mode())
      ensures var o := Run(old(Mode()), Flatten(fragments));
        && output <= o.output
        && (guarded ==> ret == Invalid && Wasteful())
        && (!guarded ==>
              && output == o.output
              && (ret.Done? <==> o.verdict.Complete?) && (ret.Invalid? <==> o.verdict.Bad?) && (ret.Partial? <==> o.verdict.More?)
              && (ret.Done? ==> unread == o.rest)
              && (ret.Partial? ==> Mode() == o.verdict.state))
    {
      hide Run, Sound;
      ghost var start := Mode();
      output, unread, guarded := [], [], false;
      var i := 0;
      assert fragments[0..] == fragments;
      AfterNothing(Run(start, Flatten(fragments)));
      while i < |fragments|
        invariant i <= |fragments| && Sound(Mode())
        invariant Run(start, Flatten(fragments)) == After(output, Run(Mode(), Flatten(fragments[i..])))
      {
        ghost var mode, rest := Mode(), Flatten(fragments[i + 1..]);
        var buf := new byte[|fragments[i]|](k requires 0 <= k < |fragments[i]| => fragments[i][k]);
        assert buf[..buf.Length] == fragments[i];
        var r, size := Decode(buf, buf.Length);
        assert fragments[i..][1..] == fragments[i + 1..];
        RunConcat(mode, fragments[i], rest);
        ghost var one := Run(mode, fragments[i]);
        AfterAfter(output, one.output, Run(Mode(), rest));
        output := output + buf[..size];
        if r.Done? {
          unread := buf[size..size + r.unread] + Flatten(fragments[i + 1..]);
          return r, output, unread, false;
        }
        if r.Invalid? { return r, output, [], one.verdict.More?; }
        i := i + 1;
      }
      assert fragments[i..] == [];
      RunNothing(Mode());
      AfterNothing(Outcome(More(Mode()), [], []));
      return Partial, output, [], false;
    }

    /** The guard against streams that are nearly all encoding. */
    ghost predicate Wasteful()
      reads this
    {
      totalOverhead >= OVERHEAD_FLOOR && (totalRead - totalOverhead) % WORD < totalRead / 4
    }
  }

  lemma AfterNothing(o: Outcome)
    ensures After([], o) == o
  {
    assert [] + o.output == o.output;
  }

  lemma AfterAfter(a: seq<byte>, b: seq<byte>, o: Outcome)
    ensures After(a, After(b, o)) == After(a + b, o)
  {
    assert a + (b + o.output) == a + b + o.output;
  }

  lemma RunNothing(s: State)
    ensures Run(s, []) == Outcome(More(s), [], [])
  {
  }

  /** The move, unless the bytes are in their place already. */
  method MoveDown(buf: array<byte>, start: nat, from: nat, taken: nat, ghost bufsz: nat)
    requires start <= from && from + taken <= bufsz <= buf.Length
    modifies buf
    ensures buf[..start] == old(buf[..start]) && buf[from + taken..] == old(buf[from + taken..])
    ensures buf[start..start + taken] == old(buf[from..bufsz])[..taken] && buf[from + taken..bufsz] == old(buf[from..bufsz])[taken..]
    ensures taken == bufsz - from ==> buf[start..start + taken] == old(buf[from..bufsz]) && buf[from + taken..bufsz] == []
  {
    ghost var was := buf[..];
    if start != from { Memmove(buf, start, from, taken); }
    assert buf[..][..start] == was[..start] && buf[..][start + taken..] == was[start + taken..];
    assert buf[..][start..start + taken] == was[from..from + taken];
    MovedData(was, buf[..], start, from, taken, bufsz);
    assert buf[from + taken..] == buf[..][from + taken..] && buf[from + taken..bufsz] == buf[..][from + taken..bufsz];
  }

  /** Copies `n` bytes down within `buf`, where the stretches may overlap. */
  method Memmove(buf: array<byte>, dst: nat, src: nat, n: nat)
    requires dst <= src && src + n <= buf.Length
    modifies buf
    ensures buf[dst..dst + n] == old(buf[src..src + n])
    ensures buf[..dst] == old(buf[..dst]) && buf[dst + n..] == old(buf[dst + n..])
  {
    ghost var was := buf[..];
    for i := 0 to n
      invariant forall k | dst <= k < dst + i :: buf[k] == old(buf[..])[k - dst + src]
      invariant forall k | 0 <= k < dst || dst + i <= k < buf.Length :: buf[k] == old(buf[k])
    {
      buf[dst + i] := buf[src + i];
    }
    assert buf[dst..dst + n] == was[src..src + n] == old(buf[src..src + n]);
  }
}
