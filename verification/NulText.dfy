/** Text made of NUL-terminated pieces, one byte a character. */
module NulText {
  import opened Prelude
  import opened Text

  const NUL: char := '\0'

  predicate NulFree(s: string) {
    NUL !in s
  }

  function Split(s: string): seq<string> {
    SplitOn(s, NUL)
  }

  /** Each piece with its terminator. */
  function Terminated(pieces: seq<string>): string {
    if pieces == [] then "" else pieces[0] + [NUL] + Terminated(pieces[1..])
  }

  predicate AllNulFree(pieces: seq<string>) {
    forall p | p in pieces :: NulFree(p)
  }

  lemma {:induction false} SplitTerminated(pieces: seq<string>)
    requires AllNulFree(pieces)
    ensures Split(Terminated(pieces)) == pieces + [""]
  {
    if pieces == [] {
      assert pieces + [""] == [""];
    } else {
      assert pieces[0] in pieces && forall p | p in pieces[1..] :: p in pieces;
      SplitTerminated(pieces[1..]);
      SplitWithout(pieces[0], NUL);
      SplitAtSeparator(pieces[0], NUL, Terminated(pieces[1..]));
      Regroup([pieces[0]], pieces[1..], [""]);
      assert [pieces[0]] + pieces[1..] == pieces;
    }
  }
}
