/** Length-prefixed frames over a byte stream, for any codec that decodes what it encodes. */
module FrameCodec {
  import opened Prelude

  const MAX_FRAME_BYTES: nat := 16 * 1024 * 1024

  datatype FrameError = Io | Eof | TooLarge(size: nat) | Decode | Encode

  /** The body codec; encoding may fail, and decoding may meet bytes it never wrote. */
  datatype Codec<!F> = Codec(encode: F -> Option<Bytes>, decode: Bytes -> Option<F>)

  ghost predicate Lawful<F(!new)>(c: Codec<F>) {
    forall f :: c.encode(f).Some? ==> c.decode(c.encode(f).value) == Some(f)
  }

  // ---------- the length word ----------

  function ToBe32(n: nat): Bytes
    requires n < 0x1_0000_0000
  {
    [n / 0x100_0000, n / 0x1_0000 % 0x100, n / 0x100 % 0x100, n % 0x100]
  }

  function FromBe32(s: Bytes): nat
    requires |s| == 4
  {
    0x100_0000 * (s[0] as int) + 0x1_0000 * (s[1] as int) + 0x100 * (s[2] as int) + s[3] as int
  }

  lemma Be32RoundTrip(n: nat)
    requires n < 0x1_0000_0000
    ensures FromBe32(ToBe32(n)) == n
  {
    var h := n / 0x1_0000;
    assert n == 0x1_0000 * h + 0x100 * (n / 0x100 % 0x100) + n % 0x100;
    assert h == 0x100 * (n / 0x100_0000) + h % 0x100;
  }

  /** The number whose digits to the base 256 are the bytes, the most significant first. */
  function BigEndian(s: Bytes): nat {
    if s == [] then 0 else 0x100 * BigEndian(s[..|s| - 1]) + s[|s| - 1]
  }

  lemma Be32IsBigEndian(s: Bytes)
    requires |s| == 4
    ensures FromBe32(s) == BigEndian(s) < 0x1_0000_0000
  {
    assert s[..3][..2] == s[..2] && s[..3][..2][..1] == s[..1] && s[..1][..0] == [];
    assert BigEndian(s[..1]) == s[0] && BigEndian(s[..2]) == 0x100 * (s[0] as int) + s[1] as int;
    assert BigEndian(s[..3]) == 0x100 * BigEndian(s[..2]) + s[2];
  }

  /** The length word of a length is the four digits of that length, the most significant first. */
  lemma LengthWordIsBigEndian(n: nat)
    requires n < 0x1_0000_0000
    ensures |ToBe32(n)| == 4 && BigEndian(ToBe32(n)) == n
  {
    Be32RoundTrip(n);
    Be32IsBigEndian(ToBe32(n));
  }

  // ---------- one frame ----------

  function WriteFrame<F>(c: Codec<F>, f: F): Result<Bytes, FrameError> {
    match c.encode(f)
    case None => Err(Encode)
    case Some(body) =>
      if |body| > MAX_FRAME_BYTES then Err(TooLarge(|body|)) else Ok(ToBe32(|body|) + body)
  }

  /** How a stream ends: at the end of the file, or in a failure. */
  function EndError(broken: bool): FrameError {
    if broken then Io else Eof
  }

  /** What is read from the stream `s` up to its end, and what is left of it. */
  function ReadFrame<F>(c: Codec<F>, s: Bytes, broken: bool): (Result<F, FrameError>, Bytes) {
    if |s| < 4 then (Err(EndError(broken)), [])
    else
      var len := FromBe32(s[..4]);
      if len > MAX_FRAME_BYTES then (Err(TooLarge(len)), s[4..])
      else if |s| < 4 + len then (Err(EndError(broken)), [])
      else
        var result := match c.decode(s[4..4 + len]) case Some(f) => Ok(f) case None => Err(Decode);
        (result, s[4 + len..])
  }

  class Reader {
    var input: Bytes
    const broken: bool

    constructor (s: Bytes, broken: bool)
      ensures input == s && this.broken == broken
    {
      input, this.broken := s, broken;
    }

    /** Fills a buffer of `n` bytes, or takes what there is and fails. */
    method ReadExact(n: nat) returns (r: Result<Bytes, FrameError>)
      modifies this
      ensures n <= |old(input)| ==> r == Ok(old(input)[..n]) && input == old(input)[n..]
      ensures n > |old(input)| ==> r == Err(EndError(broken)) && input == []
    {
      if n <= |input| {
        r := Ok(input[..n]);
        input := input[n..];
      } else {
        r := Err(EndError(broken));
        input := [];
      }
    }

    method Read<F>(c: Codec<F>) returns (r: Result<F, FrameError>)
      modifies this
      ensures (r, input) == ReadFrame(c, old(input), broken)
    {
      ghost var s := input;
      var word := ReadExact(4);
      if word.Err? {
        return Err(word.error);
      }
      var len := FromBe32(word.value);
      if len > MAX_FRAME_BYTES {
        return Err(TooLarge(len));
      }
      var body := ReadExact(len);
      if body.Err? {
        return Err(body.error);
      }
      assert body.value == s[4..4 + len] && input == s[4 + len..];
      match c.decode(body.value)
      case None => return Err(Decode);
      case Some(f) => return Ok(f);
    }
  }

  /** How a stream takes what is written: `room` bytes until it fails, and whether it can be flushed. */
  datatype Sink = Sink(room: nat, flushes: bool)

  class Writer {
    var output: Bytes

    constructor ()
      ensures output == []
    {
      output := [];
    }

    /** All the bytes, or as many as there is room for. */
    method WriteAll(bytes: Bytes, room: nat) returns (ok: bool)
      modifies this
      ensures ok <==> |bytes| <= room
      ensures output == old(output) + if ok then bytes else bytes[..room]
    {
      ok := |bytes| <= room;
      output := output + if ok then bytes else bytes[..room];
    }

    method Write<F>(c: Codec<F>, f: F, sink: Sink) returns (r: Result<(), FrameError>)
      modifies this
      ensures match WriteFrame(c, f)
        case Err(error) => r == Err(error) && output == old(output)
        case Ok(bytes) =>
          if |bytes| <= sink.room then output == old(output) + bytes && r == if sink.flushes then Ok(()) else Err(Io)
          else output == old(output) + bytes[..sink.room] && r == Err(Io)
    {
      match c.encode(f)
      case None => return Err(Encode);
      case Some(body) =>
        if |body| > MAX_FRAME_BYTES {
          return Err(TooLarge(|body|));
        }
        ghost var before, bytes := output, ToBe32(|body|) + body;
        var ok := WriteAll(ToBe32(|body|), sink.room);
        if !ok {
          assert bytes[..sink.room] == ToBe32(|body|)[..sink.room];
          return Err(Io);
        }
        ok := WriteAll(body, sink.room - 4);
        if !ok {
          assert bytes[..sink.room] == ToBe32(|body|) + body[..sink.room - 4];
          assert output == before + bytes[..sink.room];
          return Err(Io);
        }
        assert output == before + bytes;
        return if sink.flushes then Ok(()) else Err(Io);
    }
  }

  // ---------- streams of frames ----------

  /** What an attempt to write the frame puts on the stream. */
  function FrameBytes<F>(c: Codec<F>, f: F): Bytes {
    match WriteFrame(c, f) case Ok(bytes) => bytes case Err(_) => []
  }

  /** The bytes of the frames, those that cannot be written left out. */
  function Stream<F>(c: Codec<F>, frames: seq<F>): Bytes {
    if frames == [] then [] else FrameBytes(c, frames[0]) + Stream(c, frames[1..])
  }

  function Written<F>(c: Codec<F>, frames: seq<F>): seq<F> {
    if frames == [] then [] else IfWritten(c, frames[0]) + Written(c, frames[1..])
  }

  function IfWritten<F>(c: Codec<F>, f: F): seq<F> {
    if WriteFrame(c, f).Ok? then [f] else []
  }

  /** Reading until the first error. */
  function ReadAll<F>(c: Codec<F>, s: Bytes, broken: bool): (seq<F>, FrameError)
    decreases |s|
  {
    match ReadFrame(c, s, broken)
    case (Err(error), _) => ([], error)
    case (Ok(f), rest) => var (fs, error) := ReadAll(c, rest, broken); ([f] + fs, error)
  }

  /** A written frame is read back whole, whatever follows it, and what follows it is left. */
  lemma FrameRoundTrip<F(!new)>(c: Codec<F>, f: F, rest: Bytes, broken: bool)
    requires Lawful(c) && WriteFrame(c, f).Ok?
    ensures ReadFrame(c, WriteFrame(c, f).value + rest, broken) == (Ok(f), rest)
  {
    var body := c.encode(f).value;
    var s := ToBe32(|body|) + body + rest;
    Be32RoundTrip(|body|);
    assert s[..4] == ToBe32(|body|);
    assert s[4..4 + |body|] == body && s[4 + |body|..] == rest;
  }

  lemma ReadsOne<F(!new)>(c: Codec<F>, f: F, rest: Bytes, broken: bool)
    requires Lawful(c)
    ensures var (fs, error) := ReadAll(c, rest, broken);
      ReadAll(c, FrameBytes(c, f) + rest, broken) == (IfWritten(c, f) + fs, error)
  {
    match WriteFrame(c, f)
    case Err(_) => assert [] + rest == rest && [] + ReadAll(c, rest, broken).0 == ReadAll(c, rest, broken).0;
    case Ok(bytes) => FrameRoundTrip(c, f, rest, broken);
  }

  /** Frames are read back in order, and then the reader goes on with whatever follows them. */
  lemma {:induction false} ReadsThrough<F(!new)>(c: Codec<F>, frames: seq<F>, rest: Bytes, broken: bool)
    requires Lawful(c)
    ensures var (fs, error) := ReadAll(c, rest, broken);
      ReadAll(c, Stream(c, frames) + rest, broken) == (Written(c, frames) + fs, error)
  {
    if frames == [] {
      assert Stream(c, frames) + rest == rest && Written(c, frames) + ReadAll(c, rest, broken).0 == ReadAll(c, rest, broken).0;
    } else {
      ReadsThrough(c, frames[1..], rest, broken);
      ReadsOne(c, frames[0], Stream(c, frames[1..]) + rest, broken);
      Regroup(FrameBytes(c, frames[0]), Stream(c, frames[1..]), rest);
      Regroup(IfWritten(c, frames[0]), Written(c, frames[1..]), ReadAll(c, rest, broken).0);
    }
  }

  /** Reading what was written gives exactly the frames that could be written, then the end of the stream. */
  lemma StreamRoundTrip<F(!new)>(c: Codec<F>, frames: seq<F>, broken: bool)
    requires Lawful(c)
    ensures ReadAll(c, Stream(c, frames), broken) == (Written(c, frames), if broken then Io else Eof)
  {
    ReadsThrough(c, frames, [], broken);
    assert Stream(c, frames) + [] == Stream(c, frames);
    assert Written(c, frames) + [] == Written(c, frames);
  }

  /** A frame cut short reads as the end of the stream, never as a decoding error. */
  lemma CutFrame<F(!new)>(c: Codec<F>, f: F, n: nat, broken: bool)
    requires WriteFrame(c, f).Ok? && n < |WriteFrame(c, f).value|
    ensures ReadFrame(c, WriteFrame(c, f).value[..n], broken) == (Err(EndError(broken)), [])
  {
    var body := c.encode(f).value;
    var s := WriteFrame(c, f).value[..n];
    Be32RoundTrip(|body|);
    if n >= 4 {
      assert s[..4] == ToBe32(|body|);
    }
  }

  /**
   Wherever the stream is cut, the reader gets the frames that lie wholly before the cut and then
   the end of the stream: `k` counts those frames.
   */
  lemma {:induction false} CutStream<F(!new)>(c: Codec<F>, frames: seq<F>, n: nat, broken: bool) returns (k: nat)
    requires Lawful(c) && n <= |Stream(c, frames)|
    ensures k <= |frames| && |Stream(c, frames[..k])| <= n
    ensures k < |frames| ==> n < |Stream(c, frames[..k + 1])|
    ensures ReadAll(c, Stream(c, frames)[..n], broken) == (Written(c, frames[..k]), if broken then Io else Eof)
  {
    if frames == [] {
      k := 0;
    } else {
      var first := Stream(c, frames[..1]);
      FirstOfStream(c, frames);
      if n < |first| {
        k := 0;
        CutFrame(c, frames[0], n, broken);
        assert Stream(c, frames)[..n] == first[..n];
      } else {
        var j := CutStream(c, frames[1..], n - |first|, broken);
        k := j + 1;
        CutBehindFirst(c, frames, n, broken);
        SplitFirst(c, frames, k);
        if k < |frames| {
          SplitFirst(c, frames, k + 1);
        }
      }
    }
  }

  lemma CutBehindFirst<F(!new)>(c: Codec<F>, frames: seq<F>, n: nat, broken: bool)
    requires Lawful(c) && frames != [] && |Stream(c, frames[..1])| <= n <= |Stream(c, frames)|
    ensures |Stream(c, frames)| == |Stream(c, frames[..1])| + |Stream(c, frames[1..])|
    ensures var rest := ReadAll(c, Stream(c, frames[1..])[..n - |Stream(c, frames[..1])|], broken);
      ReadAll(c, Stream(c, frames)[..n], broken) == (Written(c, frames[..1]) + rest.0, rest.1)
  {
    var first, tail := Stream(c, frames[..1]), Stream(c, frames[1..]);
    FirstOfStream(c, frames);
    assert (first + tail)[..n] == first + tail[..n - |first|];
    ReadsThrough(c, frames[..1], tail[..n - |first|], broken);
  }

  lemma FirstOfStream<F>(c: Codec<F>, frames: seq<F>)
    requires frames != []
    ensures Stream(c, frames[..1]) == FrameBytes(c, frames[0])
    ensures Written(c, frames[..1]) == IfWritten(c, frames[0])
    ensures Stream(c, frames) == Stream(c, frames[..1]) + Stream(c, frames[1..])
  {
    assert frames[..1][0] == frames[0] && frames[..1][1..] == [];
    assert Stream(c, frames[..1][1..]) == [] && Written(c, frames[..1][1..]) == [];
  }

  lemma SplitFirst<F>(c: Codec<F>, frames: seq<F>, k: nat)
    requires 0 < k <= |frames|
    ensures Stream(c, frames[..k]) == Stream(c, frames[..1]) + Stream(c, frames[1..][..k - 1])
    ensures Written(c, frames[..k]) == Written(c, frames[..1]) + Written(c, frames[1..][..k - 1])
  {
    FirstOfStream(c, frames);
    assert frames[..k][0] == frames[0] && frames[..k][1..] == frames[1..][..k - 1];
  }

  /** A body of any bytes within the limit is taken whole, and the codec alone decides what it is. */
  lemma BodyIsTaken<F>(c: Codec<F>, body: Bytes, rest: Bytes, broken: bool)
    requires |body| <= MAX_FRAME_BYTES
    ensures ReadFrame(c, ToBe32(|body|) + body + rest, broken) ==
      (match c.decode(body) case Some(f) => Ok(f) case None => Err(Decode), rest)
  {
    var s := ToBe32(|body|) + body + rest;
    Be32RoundTrip(|body|);
    assert s[..4] == ToBe32(|body|) && s[4..4 + |body|] == body && s[4 + |body|..] == rest;
  }

  /**
   The writer refuses just what the reader would: a frame with an encoding is written, behind the four
   digits of its length, if and only if a reader takes it from such bytes; otherwise both say it is too
   large. One without an encoding is refused for that.
   */
  lemma WrittenExactlyIfReadable<F(!new)>(c: Codec<F>, f: F, word: Bytes, broken: bool)
    requires Lawful(c)
    requires |word| == 4 && (c.encode(f).Some? ==> BigEndian(word) == |c.encode(f).value|)
    ensures match c.encode(f)
      case None => WriteFrame(c, f) == Err(Encode)
      case Some(body) =>
        && (WriteFrame(c, f) == Ok(word + body) <==> ReadFrame(c, word + body, broken) == (Ok(f), []))
        && (WriteFrame(c, f) == Ok(word + body) <==> |body| <= 16_777_216)
        && (|body| > 16_777_216 ==>
              WriteFrame(c, f) == Err(TooLarge(|body|)) && ReadFrame(c, word + body, broken).0 == Err(TooLarge(|body|)))
  {
    if c.encode(f).Some? {
      var body := c.encode(f).value;
      Be32IsBigEndian(word);
      WordIsDigits(word);
      assert word + body + [] == word + body;
      if |body| <= MAX_FRAME_BYTES {
        BodyIsTaken(c, body, [], broken);
      } else {
        assert (word + body)[..4] == word;
      }
    }
  }

  lemma WordIsDigits(word: Bytes)
    requires |word| == 4
    ensures FromBe32(word) < 0x1_0000_0000 && ToBe32(FromBe32(word)) == word
  {
    var n := FromBe32(word);
    assert n / 0x100_0000 == word[0];
    assert n / 0x1_0000 == 0x100 * (word[0] as int) + word[1] as int;
    assert n / 0x100 == 0x1_0000 * (word[0] as int) + 0x100 * (word[1] as int) + word[2] as int;
  }

  /** A length word over the limit is refused before any of the body is taken. */
  lemma OversizeIsRefused<F>(c: Codec<F>, n: nat, rest: Bytes, broken: bool)
    requires MAX_FRAME_BYTES < n < 0x1_0000_0000
    ensures ReadFrame(c, ToBe32(n) + rest, broken) == (Err(TooLarge(n)), rest)
  {
    Be32RoundTrip(n);
    assert (ToBe32(n) + rest)[..4] == ToBe32(n) && (ToBe32(n) + rest)[4..] == rest;
  }

  /** What a writer leaves behind when it breaks off inside a frame is the frames before it, and then the end. */
  lemma BrokenWriteIsTheEnd<F(!new)>(c: Codec<F>, frames: seq<F>, f: F, room: nat, broken: bool)
    requires Lawful(c) && WriteFrame(c, f).Ok? && room < |WriteFrame(c, f).value|
    ensures ReadAll(c, Stream(c, frames) + WriteFrame(c, f).value[..room], broken)
         == (Written(c, frames), if broken then Io else Eof)
  {
    var part := WriteFrame(c, f).value[..room];
    CutFrame(c, f, room, broken);
    ReadsThrough(c, frames, part, broken);
    assert Written(c, frames) + [] == Written(c, frames);
  }
}
