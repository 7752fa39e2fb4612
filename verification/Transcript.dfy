/**
 The recorder of child output: every chunk goes to the replay ring and to a bounded tail, and the
 last lines of the tail end up in the final-info document.
 */
module Transcript {
  import opened Prelude
  import opened Rings
  import opened Text

  const TAIL_BYTES := 32 * 1024

  const LAST_LINES := 100

  /** The last `n` elements, or all of them. */
  function LastN<T>(s: seq<T>, n: nat): seq<T> {
    if |s| <= n then s else s[|s| - n..]
  }

  function Concat(chunks: seq<Bytes>): Bytes {
    if chunks == [] then [] else Concat(chunks[..|chunks| - 1]) + chunks[|chunks| - 1]
  }

  /** The tail after the chunks of a session, one by one. */
  function TailAfter(chunks: seq<Bytes>, cap: nat): Bytes {
    if chunks == [] then [] else
    LastN(TailAfter(chunks[..|chunks| - 1], cap) + chunks[|chunks| - 1], cap)
  }

  class Recorder {
    const ring: RingBuffer
    var tail: Bytes

    constructor (ring: RingBuffer)
      ensures this.ring == ring && tail == []
    {
      this.ring := ring;
      tail := [];
    }

    method RecordChunk(data: Bytes)
      requires ring.Valid()
      modifies this, ring
      ensures ring.Valid() && ring.View() == AfterPush(old(ring.View()), data, ring.capacity)
      ensures tail == LastN(old(tail) + data, TAIL_BYTES)
    {
      var _ := ring.Push(data);
      tail := tail + data;
      DropFront();
    }

    /** Keeps the last `TAIL_BYTES` of the tail. */
    method DropFront()
      modifies this`tail
      ensures tail == LastN(old(tail), TAIL_BYTES)
    {
      if |tail| > TAIL_BYTES {
        var drop := |tail| - TAIL_BYTES;
        tail := tail[drop..];
      }
    }
  }

  function Pushes(chunks: seq<Bytes>): seq<Op> {
    if chunks == [] then [] else Pushes(chunks[..|chunks| - 1]) + [PushOp(chunks[|chunks| - 1])]
  }

  lemma PushesOne(capacity: nat, chunks: seq<Bytes>, i: nat)
    requires i < |chunks|
    ensures Run(capacity, Pushes(chunks[..i + 1])) == AfterPush(Run(capacity, Pushes(chunks[..i])), chunks[i], capacity)
  {
    assert chunks[..i + 1][..i] == chunks[..i];
    var ops := Pushes(chunks[..i]) + [PushOp(chunks[i])];
    assert Pushes(chunks[..i + 1]) == ops && ops[..|ops| - 1] == Pushes(chunks[..i]);
  }

  lemma TailOne(chunks: seq<Bytes>, i: nat)
    requires i < |chunks|
    ensures TailAfter(chunks[..i + 1], TAIL_BYTES) == LastN(TailAfter(chunks[..i], TAIL_BYTES) + chunks[i], TAIL_BYTES)
  {
    assert chunks[..i + 1][..i] == chunks[..i];
  }

  /** Recording a whole session, on a fresh recorder. */
  method RecordAll(recorder: Recorder, chunks: seq<Bytes>)
    requires recorder.ring.Valid() && recorder.ring.View() == Ring([], 0) && recorder.tail == []
    modifies recorder, recorder.ring
    ensures recorder.ring.Valid() && recorder.ring.log == chunks
    ensures recorder.ring.View() == Run(recorder.ring.capacity, Pushes(chunks))
    ensures recorder.tail == LastN(Concat(chunks), TAIL_BYTES)
  {
    for i := 0 to |chunks|
      invariant recorder.ring.Valid() && recorder.ring.log == chunks[..i]
      invariant recorder.ring.View() == Run(recorder.ring.capacity, Pushes(chunks[..i]))
      invariant recorder.tail == TailAfter(chunks[..i], TAIL_BYTES)
    {
      PushesOne(recorder.ring.capacity, chunks, i);
      TailOne(chunks, i);
      assert chunks[..i + 1] == chunks[..i] + [chunks[i]];
      recorder.RecordChunk(chunks[i]);
    }
    assert chunks[..|chunks|] == chunks;
    TailIsSuffix(chunks, TAIL_BYTES);
  }

  /** However the output is chunked, the tail is the last bytes of the whole stream. */
  lemma {:induction false} TailIsSuffix(chunks: seq<Bytes>, cap: nat)
    ensures TailAfter(chunks, cap) == LastN(Concat(chunks), cap)
  {
    if chunks != [] {
      TailIsSuffix(chunks[..|chunks| - 1], cap);
      LastNOfLastN(Concat(chunks[..|chunks| - 1]), chunks[|chunks| - 1], cap);
    }
  }

  lemma LastNOfLastN(a: Bytes, b: Bytes, n: nat)
    ensures LastN(LastN(a, n) + b, n) == LastN(a + b, n)
  {
  }

  // ---------- lines ----------

  const LF: byte := 10

  /**
   What `String::from_utf8_lossy` promises: a byte below 128 stands for itself wherever it stands, and
   nothing but a line feed is decoded to a newline.
   */
  ghost predicate Lossy(decode: Bytes -> string) {
    && decode([]) == ""
    && (forall a: Bytes, c: byte, b: Bytes | c < 128 :: decode(a + [c] + b) == decode(a) + [c as char] + decode(b))
    && (forall s: Bytes :: '\n' in decode(s) ==> LF in s)
  }

  method TailLines(buf: Bytes, n: nat, decode: Bytes -> string) returns (lines: seq<string>)
    ensures lines == LastN(Lines(decode(buf)), n)
  {
    if n == 0 {
      return [];
    }
    lines := Lines(decode(buf));
    if |lines| > n {
      var drop := |lines| - n;
      lines := lines[drop..];
    }
  }

  function FirstFeed(text: Bytes): (i: nat)
    ensures i <= |text| && LF !in text[..i] && (i < |text| ==> text[i] == LF)
  {
    if text == [] || text[0] == LF then 0 else 1 + FirstFeed(text[1..])
  }

  lemma OneLineAtMost(text: string)
    requires '\n' !in text
    ensures |Lines(text)| <= 1 && |Lines(text + ['\n'])| == 1
  {
    NoSplit(text, '\n');
    FirstLine(text, "");
    assert text + ['\n'] + "" == text + ['\n'];
  }

  /** However the front of a text is cut, even inside a character, all its lines but the first are those of the whole. */
  lemma FrontChangesOneLine(front: Bytes, text: Bytes, n: nat, decode: Bytes -> string)
    requires Lossy(decode) && |Lines(decode(text))| > n
    ensures LastN(Lines(decode(front + text)), n) == LastN(Lines(decode(text)), n)
  {
    var i := FirstFeed(text);
    if i == |text| {
      assert text[..i] == text;
      OneLineAtMost(decode(text));
      assert LastN(Lines(decode(text)), 0) == [];
    } else {
      var head, rest := text[..i], text[i + 1..];
      assert text == head + [LF] + rest && front + text == (front + head) + [LF] + rest;
      assert decode(text) == decode(head) + ['\n'] + decode(rest);
      assert decode(front + text) == decode(front + head) + ['\n'] + decode(rest);
      LinesAtNewline(decode(head), decode(rest));
      LinesAtNewline(decode(front + head), decode(rest));
      OneLineAtMost(decode(head));
      LastNOfAppend(Lines(decode(head) + ['\n']), Lines(decode(rest)), n);
      LastNOfAppend(Lines(decode(front + head) + ['\n']), Lines(decode(rest)), n);
    }
  }

  lemma LastNOfAppend(a: seq<string>, b: seq<string>, n: nat)
    requires n <= |b|
    ensures LastN(a + b, n) == LastN(b, n)
  {
  }

  /**
   Whatever the chunking of the output: when the tail holds more than `n` lines, its last `n` are the
   last `n` lines of everything that was recorded, invalid UTF-8 and characters cut in two included.
   */
  lemma LastLinesAreExact(chunks: seq<Bytes>, cap: nat, n: nat, decode: Bytes -> string)
    requires Lossy(decode) && |Lines(decode(TailAfter(chunks, cap)))| > n
    ensures LastN(Lines(decode(TailAfter(chunks, cap))), n) == LastN(Lines(decode(Concat(chunks))), n)
  {
    TailIsSuffix(chunks, cap);
    var all, tail := Concat(chunks), TailAfter(chunks, cap);
    var front := all[..|all| - |tail|];
    assert all == front + tail;
    FrontChangesOneLine(front, tail, n, decode);
  }

  // ---------- exactly when ----------

  /** Plain text: ASCII, and no carriage returns. */
  predicate Plain(text: Bytes) {
    forall i | 0 <= i < |text| :: text[i] < 128 && text[i] != 13
  }

  predicate NoReturn(s: string) {
    forall i | 0 <= i < |s| :: s[i] != '\r'
  }

  function Chars(text: Bytes): string
    requires Plain(text)
  {
    if text == [] then "" else [text[0] as char] + Chars(text[1..])
  }

  lemma {:induction false} PlainDecodes(text: Bytes, decode: Bytes -> string)
    requires Lossy(decode) && Plain(text)
    ensures decode(text) == Chars(text) && NoReturn(decode(text)) && |decode(text)| == |text|
  {
    if text != [] {
      var none: Bytes := [];
      var first, rest := text[0], text[1..];
      assert text == none + [first] + rest;
      assert decode(none + [first] + rest) == decode(none) + [first as char] + decode(rest);
      PlainDecodes(rest, decode);
    }
  }

  lemma {:induction false} CharsAppend(a: Bytes, b: Bytes)
    requires Plain(a) && Plain(b) && Plain(a + b)
    ensures Chars(a + b) == Chars(a) + Chars(b)
  {
    if a == [] {
      assert a + b == b;
    } else {
      assert (a + b)[1..] == a[1..] + b;
      CharsAppend(a[1..], b);
      Regroup([a[0] as char], Chars(a[1..]), Chars(b));
    }
  }

  lemma PlainFirstLine(head: string, rest: string)
    requires '\n' !in head && NoReturn(head)
    ensures Lines(head + ['\n'] + rest) == [head] + Lines(rest)
  {
    FirstLine(head, rest);
    assert StripReturn(head) == head;
  }

  lemma LongerByFront(x: string, head: string, rest: string)
    requires '\n' !in x && '\n' !in head && NoReturn(x) && NoReturn(head)
    ensures Lines(head + ['\n'] + rest) == [head] + Lines(rest)
    ensures Lines(x + (head + ['\n'] + rest)) == [x + head] + Lines(rest)
  {
    PlainFirstLine(head, rest);
    PlainFirstLine(x + head, rest);
    Regroup(x, head + ['\n'], rest);
    Regroup(x, head, ['\n']);
  }

  /** What stands before a text on its first line only makes that line longer. */
  lemma LongerFirstLine(x: string, t: string)
    requires '\n' !in x && t != "" && NoReturn(t) && NoReturn(x)
    ensures Lines(t) != [] && Lines(x + t) == [x + Lines(t)[0]] + Lines(t)[1..]
  {
    var i := IndexOf(t, '\n');
    if i == |t| {
      assert t[..i] == t;
      NoSplit(t, '\n');
      NoSplit(x + t, '\n');
    } else {
      assert t == t[..i] + ['\n'] + t[i + 1..];
      LongerByFront(x, t[..i], t[i + 1..]);
    }
  }

  /** A text is its whole lines and what stands behind its last newline. */
  lemma {:induction false} LastLine(f: string) returns (g: string, x: string)
    requires f != "" && NoReturn(f)
    ensures f == g + x && (g == "" || g[|g| - 1] == '\n')
    ensures '\n' !in x && NoReturn(x) && (x == "" <==> f[|f| - 1] == '\n')
  {
    if f[|f| - 1] == '\n' {
      g, x := f, "";
    } else if |f| == 1 {
      g, x := "", f;
    } else {
      g, x := LastLine(f[..|f| - 1]);
      x := x + [f[|f| - 1]];
    }
  }

  lemma LinesBehindNewline(g: string, u: string)
    requires g == "" || g[|g| - 1] == '\n'
    ensures Lines(g + u) == Lines(g) + Lines(u) && (g != "" ==> Lines(g) != [])
  {
    if g == "" {
      assert g + u == u && Lines(g) + Lines(u) == Lines(u);
    } else {
      var g0 := g[..|g| - 1];
      assert g == g0 + ['\n'];
      LinesAtNewline(g0, u);
    }
  }

  /** A suffix of the right length with another first line is another list of lines. */
  lemma OtherFirst(more: seq<string>, y: string, lines: seq<string>, n: nat)
    requires lines != [] && |lines| <= n && y != lines[0]
    ensures LastN(more + [y] + lines[1..], n) != lines
  {
    var all := more + [y] + lines[1..];
    if |LastN(all, n)| == |lines| {
      assert LastN(all, n)[0] == all[|more|];
    }
  }

  lemma LinesAreExactly(f: string, t: string, n: nat)
    requires f != "" && t != "" && NoReturn(f) && NoReturn(t) && |Lines(t)| <= n
    ensures LastN(Lines(f + t), n) == Lines(t) <==> |Lines(t)| == n && f[|f| - 1] == '\n'
  {
    var g, x := LastLine(f);
    if x == "" {
      assert g + x == g;
      WholeLinesBefore(f, t, n);
    } else {
      PartLineBefore(g, x, t, n);
    }
  }

  lemma WholeLinesBefore(g: string, t: string, n: nat)
    requires g != "" && g[|g| - 1] == '\n' && |Lines(t)| <= n
    ensures LastN(Lines(g + t), n) == Lines(t) <==> |Lines(t)| == n
  {
    LinesBehindNewline(g, t);
    if |Lines(t)| == n {
      LastNOfAppend(Lines(g), Lines(t), n);
    }
  }

  lemma PartLineBefore(g: string, x: string, t: string, n: nat)
    requires (g == "" || g[|g| - 1] == '\n') && '\n' !in x && x != "" && NoReturn(x)
    requires t != "" && NoReturn(t) && |Lines(t)| <= n
    ensures LastN(Lines(g + x + t), n) != Lines(t)
  {
    Regroup(g, x, t);
    LinesBehindNewline(g, x + t);
    LongerFirstLine(x, t);
    Regroup(Lines(g), [x + Lines(t)[0]], Lines(t)[1..]);
    OtherFirst(Lines(g), x + Lines(t)[0], Lines(t), n);
  }

  /** The tail says all there is to say of the last lines. */
  predicate Enough(front: Bytes, tailLines: nat, n: nat) {
    front == [] || tailLines > n || (tailLines == n && front[|front| - 1] == LF)
  }

  /**
   For plain text, the last `n` lines of the tail are those of the whole stream if and only if the
   stream fits, or the tail holds more than `n` lines, or it holds exactly `n` and the byte before it
   is a line feed.
   */
  lemma LastLinesExactly(front: Bytes, tail: Bytes, n: nat, decode: Bytes -> string)
    requires Lossy(decode) && Plain(front + tail) && (tail == [] ==> front == [])
    ensures LastN(Lines(decode(tail)), n) == LastN(Lines(decode(front + tail)), n)
       <==> Enough(front, |Lines(decode(tail))|, n)
  {
    if front == [] {
      assert front + tail == tail;
    } else if |Lines(decode(tail))| > n {
      FrontChangesOneLine(front, tail, n, decode);
    } else {
      assert forall i | 0 <= i < |front| :: front[i] == (front + tail)[i];
      assert forall i | 0 <= i < |tail| :: tail[i] == (front + tail)[|front| + i];
      PlainDecodes(front, decode);
      PlainDecodes(tail, decode);
      PlainDecodes(front + tail, decode);
      CharsAppend(front, tail);
      LastChar(front, decode);
      LinesAreExactly(decode(front), decode(tail), n);
    }
  }

  lemma LastChar(text: Bytes, decode: Bytes -> string)
    requires Lossy(decode) && Plain(text) && text != []
    ensures decode(text) != "" && decode(text)[|decode(text)| - 1] == text[|text| - 1] as char
  {
    var none: Bytes, last := [], text[|text| - 1];
    assert text == text[..|text| - 1] + [last] + none;
    assert decode(text[..|text| - 1] + [last] + none) == decode(text[..|text| - 1]) + [last as char] + decode(none);
  }

  /** The bytes of a session that its tail has lost. */
  function Lost(chunks: seq<Bytes>): Bytes {
    var all := Concat(chunks);
    all[..|all| - |LastN(all, TAIL_BYTES)|]
  }

  lemma LostAndKept(chunks: seq<Bytes>)
    ensures Concat(chunks) == Lost(chunks) + LastN(Concat(chunks), TAIL_BYTES)
    ensures Lost(chunks) == [] <==> |Concat(chunks)| <= TAIL_BYTES
  {
  }

  /**
   The final-info document of a session gets the last lines of the session whenever the tail holds more
   than a hundred lines or the session fits the tail; for plain text exactly then, or if the tail
   begins with a line and holds a hundred.
   */
  method FinalLines(recorder: Recorder, decode: Bytes -> string, ghost chunks: seq<Bytes>) returns (lines: seq<string>)
    requires Lossy(decode) && recorder.tail == LastN(Concat(chunks), TAIL_BYTES)
    ensures |Lines(decode(recorder.tail))| > LAST_LINES || |Concat(chunks)| <= TAIL_BYTES ==>
      lines == LastN(Lines(decode(Concat(chunks))), LAST_LINES)
    ensures Plain(Concat(chunks)) ==>
      (lines == LastN(Lines(decode(Concat(chunks))), LAST_LINES)
       <==> Enough(Lost(chunks), |Lines(decode(recorder.tail))|, LAST_LINES))
  {
    lines := TailLines(recorder.tail, LAST_LINES, decode);
    TailIsSuffix(chunks, TAIL_BYTES);
    if |Lines(decode(recorder.tail))| > LAST_LINES {
      LastLinesAreExact(chunks, TAIL_BYTES, LAST_LINES, decode);
    }
    LostAndKept(chunks);
    if Plain(Concat(chunks)) {
      LastLinesExactly(Lost(chunks), recorder.tail, LAST_LINES, decode);
    }
  }

  function Letters(n: nat): Bytes {
    seq(n, _ => 97)
  }

  /** One chunk of letters, a byte longer than the tail, loses the first letter of its only line. */
  lemma FirstLineCanBeCut(decode: Bytes -> string)
    requires Lossy(decode)
    ensures var chunks := [Letters(TAIL_BYTES + 1)];
      && |Lines(decode(TailAfter(chunks, TAIL_BYTES)))| == 1
      && LastN(Lines(decode(TailAfter(chunks, TAIL_BYTES))), LAST_LINES)
         != LastN(Lines(decode(Concat(chunks))), LAST_LINES)
  {
    var all := Letters(TAIL_BYTES + 1);
    var chunks := [all];
    assert chunks[..0] == [] && Concat(chunks[..0]) + all == all;
    TailIsSuffix(chunks, TAIL_BYTES);
    var tail := all[1..];
    assert TailAfter(chunks, TAIL_BYTES) == tail && all == all[..1] + tail;
    PlainDecodes(tail, decode);
    assert LF !in tail;
    OneLineAtMost(decode(tail));
    NoSplit(decode(tail), '\n');
    LastLinesExactly(all[..1], tail, LAST_LINES, decode);
  }

  /** A decoding with those properties: every byte that is not ASCII is replaced. */
  function Replaced(text: Bytes): string {
    if text == [] then "" else [Replace(text[0])] + Replaced(text[1..])
  }

  function Replace(b: byte): char {
    if b < 128 then b as char else '?'
  }

  lemma {:induction false} ReplacedAppend(a: Bytes, b: Bytes)
    ensures Replaced(a + b) == Replaced(a) + Replaced(b)
  {
    if a == [] {
      assert a + b == b;
    } else {
      assert (a + b)[1..] == a[1..] + b;
      ReplacedAppend(a[1..], b);
      Regroup([Replace(a[0])], Replaced(a[1..]), Replaced(b));
    }
  }

  lemma {:induction false} ReplacedFeeds(text: Bytes)
    requires '\n' in Replaced(text)
    ensures LF in text
  {
    if text[0] != LF {
      assert Replaced(text)[0] != '\n';
      ReplacedFeeds(text[1..]);
    }
  }

  lemma ReplacedIsLossy()
    ensures Lossy(Replaced)
  {
    forall a: Bytes, c: byte, b: Bytes | c < 128
      ensures Replaced(a + [c] + b) == Replaced(a) + [c as char] + Replaced(b)
    {
      ReplacedAppend(a + [c], b);
      ReplacedAppend(a, [c]);
      assert [c][1..] == [];
    }
    forall s: Bytes | '\n' in Replaced(s) ensures LF in s {
      ReplacedFeeds(s);
    }
  }
}
