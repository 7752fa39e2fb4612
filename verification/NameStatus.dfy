/** `git diff --name-status -M -z`: a code and one path, or for renames and copies two. */
module NameStatus {
  import opened Prelude
  import opened NulText

  datatype Kind = Added | Deleted | Modified | Renamed

  datatype Change = Change(kind: Kind, path: string, oldPath: Option<string>)

  /** The kind of the codes that name one path; `None` for letters the parser does not know. */
  function OnePathKind(letter: char): Option<Kind> {
    if letter == 'A' then Some(Added)
    else if letter == 'D' then Some(Deleted)
    else if letter == 'M' || letter == 'T' then Some(Modified)
    else None
  }

  predicate TwoPaths(letter: char) {
    letter == 'R' || letter == 'C'
  }

  function Filled(pieces: seq<string>): seq<string> {
    if pieces == [] then []
    else (if pieces[0] == "" then [] else [pieces[0]]) + Filled(pieces[1..])
  }

  predicate NoneEmpty(pieces: seq<string>) {
    forall p | p in pieces :: p != ""
  }

  function FirstLetter(code: string): char {
    if code == "" then ' ' else code[0]
  }

  function After(pieces: seq<string>, n: nat): seq<string> {
    if |pieces| < n then [] else pieces[n..]
  }

  /** The change the first record stands for, if it is complete and of a kind that is known. */
  function FirstChange(pieces: seq<string>): seq<Change>
    requires pieces != []
  {
    var letter := FirstLetter(pieces[0]);
    if TwoPaths(letter) then
      (if |pieces| >= 3 then [Change(Renamed, pieces[2], Some(pieces[1]))] else [])
    else if |pieces| >= 2 && OnePathKind(letter).Some? then
      [Change(OnePathKind(letter).value, pieces[1], None)]
    else
      []
  }

  /** The changes of a list of pieces. */
  function Changes(pieces: seq<string>): seq<Change>
    decreases |pieces|
  {
    if pieces == [] then []
    else FirstChange(pieces) + Changes(After(pieces, if TwoPaths(FirstLetter(pieces[0])) then 3 else 2))
  }

  lemma ChangesStep(pieces: seq<string>, before: seq<Change>)
    requires pieces != []
    ensures var rest := After(pieces, if TwoPaths(FirstLetter(pieces[0])) then 3 else 2);
      before + Changes(pieces) == before + FirstChange(pieces) + Changes(rest)
  {
  }

  class Chunks {
    var pieces: seq<string>

    constructor (stdout: string)
      ensures pieces == Filled(Split(stdout))
    {
      pieces := Filled(Split(stdout));
    }

    method Next() returns (piece: Option<string>)
      modifies this
      ensures old(pieces) == [] ==> piece == None && pieces == []
      ensures old(pieces) != [] ==> piece == Some(old(pieces)[0]) && pieces == old(pieces)[1..]
    {
      if pieces == [] {
        return None;
      }
      piece := Some(pieces[0]);
      pieces := pieces[1..];
    }

    /** One round of the loop: the paths that go with a code, and what to add to the list. */
    method ReadRecord(code: string) returns (change: seq<Change>)
      modifies this
      ensures change == FirstChange([code] + old(pieces))
      ensures pieces == After([code] + old(pieces), if TwoPaths(FirstLetter(code)) then 3 else 2)
    {
      ghost var all := [code] + pieces;
      change := [];
      var first := FirstLetter(code);
      if first == 'A' || first == 'D' || first == 'M' || first == 'T' {
        var p := Next();
        if p.Some? {
          var kind := if first == 'A' then Added else if first == 'D' then Deleted else Modified;
          change := [Change(kind, p.value, None)];
        }
        assert pieces == After(all, 2);
      } else if first == 'R' || first == 'C' {
        var from := Next();
        var to := Next();
        if to.Some? {
          change := [Change(Renamed, to.value, from)];
        }
        assert pieces == After(all, 3);
      } else {
        var skipped := Next();
        assert pieces == After(all, 2);
      }
    }
  }

  /** The pieces still to be read, the code in hand first. */
  function Left(code: Option<string>, pieces: seq<string>): seq<string> {
    (if code.Some? then [code.value] else []) + pieces
  }

  /** Taking the next piece in hand leaves the same pieces to be read. */
  lemma LeftIsSame(code: Option<string>, rest: seq<string>, pieces: seq<string>)
    requires if pieces == [] then code == None && rest == [] else code == Some(pieces[0]) && rest == pieces[1..]
    ensures Left(code, rest) == pieces
  {
  }

  method ParseNameStatus(stdout: string) returns (out: seq<Change>)
    ensures out == Changes(Filled(Split(stdout)))
  {
    out := [];
    var chunks := new Chunks(stdout);
    ghost var all := chunks.pieces;
    var code := chunks.Next();
    LeftIsSame(code, chunks.pieces, all);
    while code.Some?
      invariant fresh(chunks)
      invariant code.None? ==> chunks.pieces == []
      invariant out + Changes(Left(code, chunks.pieces)) == Changes(all)
      decreases |chunks.pieces|, code.Some?
    {
      ChangesStep(Left(code, chunks.pieces), out);
      var change := chunks.ReadRecord(code.value);
      out := out + change;
      ghost var rest := chunks.pieces;
      code := chunks.Next();
      LeftIsSame(code, chunks.pieces, rest);
    }
    LeftIsSame(None, [], []);
  }

  // ---------- what git writes ----------

  /** What git says of one path; it has letters the parser does not know, such as `U`. */
  datatype Mark = Addition | Deletion | Edit | TypeChange | Unknown(letter: char)

  /** The score follows the letter in the code: `R090` is a rename with the score `090`. */
  datatype Record =
    | One(mark: Mark, score: string, path: string)
    | Two(copy: bool, score: string, from: string, to: string)

  function Letter(mark: Mark): char {
    match mark
    case Addition => 'A'
    case Deletion => 'D'
    case Edit => 'M'
    case TypeChange => 'T'
    case Unknown(letter) => letter
  }

  function Code(r: Record): string {
    match r
    case One(mark, score, _) => [Letter(mark)] + score
    case Two(copy, score, _, _) => [if copy then 'C' else 'R'] + score
  }

  predicate WellFormed(r: Record) {
    NulFree(Code(r)) &&
    match r
    case One(mark, _, path) => (mark.Unknown? ==> mark.letter !in "ADMTRC") && path != "" && NulFree(path)
    case Two(_, _, from, to) => from != "" && NulFree(from) && to != "" && NulFree(to)
  }

  predicate AllWellFormed(rs: seq<Record>) {
    forall r | r in rs :: WellFormed(r)
  }

  function PiecesOf(r: Record): seq<string> {
    match r
    case One(_, _, path) => [Code(r), path]
    case Two(_, _, from, to) => [Code(r), from, to]
  }

  function Pieces(rs: seq<Record>): seq<string> {
    if rs == [] then [] else PiecesOf(rs[0]) + Pieces(rs[1..])
  }

  function Output(rs: seq<Record>): string {
    Terminated(Pieces(rs))
  }

  /** A changed type is a modification, and a copy counts as a rename. */
  function Meant(r: Record): seq<Change> {
    match r
    case Two(_, _, from, to) => [Change(Renamed, to, Some(from))]
    case One(mark, _, path) =>
      match mark
      case Addition => [Change(Added, path, None)]
      case Deletion => [Change(Deleted, path, None)]
      case Edit => [Change(Modified, path, None)]
      case TypeChange => [Change(Modified, path, None)]
      case Unknown(_) => []
  }

  function AllMeant(rs: seq<Record>): seq<Change> {
    if rs == [] then [] else Meant(rs[0]) + AllMeant(rs[1..])
  }

  lemma {:induction false} PiecesAreText(rs: seq<Record>)
    requires AllWellFormed(rs)
    ensures AllNulFree(Pieces(rs)) && NoneEmpty(Pieces(rs))
  {
    if rs != [] {
      assert WellFormed(rs[0]);
      PiecesAreText(rs[1..]);
    }
  }

  lemma {:induction false} FilledKeeps(pieces: seq<string>)
    requires NoneEmpty(pieces)
    ensures Filled(pieces + [""]) == pieces
  {
    if pieces == [] {
      assert [""][1..] == [] && pieces + [""] == [""];
    } else {
      assert pieces[0] in pieces;
      assert forall p | p in pieces[1..] :: p in pieces;
      assert (pieces + [""])[1..] == pieces[1..] + [""];
      FilledKeeps(pieces[1..]);
    }
  }

  /** The pieces of a record stand for its change, whatever follows them. */
  lemma HeadIsRead(r: Record, rest: seq<string>)
    requires WellFormed(r)
    ensures FirstChange(PiecesOf(r) + rest) == Meant(r)
    ensures TwoPaths(FirstLetter(Code(r))) <==> r.Two?
  {
    assert (PiecesOf(r) + rest)[0] == Code(r);
    match r
    case One(mark, _, _) => assert Code(r)[0] == Letter(mark);
    case Two(copy, _, _, _) => assert Code(r)[0] == if copy then 'C' else 'R';
  }

  lemma {:induction false} ReadsInStep(rs: seq<Record>, rest: seq<string>)
    requires AllWellFormed(rs)
    ensures Changes(Pieces(rs) + rest) == AllMeant(rs) + Changes(rest)
  {
    if rs == [] {
      assert Pieces(rs) + rest == rest && AllMeant(rs) + Changes(rest) == Changes(rest);
    } else {
      assert WellFormed(rs[0]);
      var more := Pieces(rs[1..]) + rest;
      ReadsInStep(rs[1..], rest);
      HeadIsRead(rs[0], more);
      Regroup(PiecesOf(rs[0]), Pieces(rs[1..]), rest);
      Regroup(Meant(rs[0]), AllMeant(rs[1..]), Changes(rest));
      assert (PiecesOf(rs[0]) + more)[|PiecesOf(rs[0])|..] == more;
    }
  }

  /** Output cut off inside its last record, behind a code or behind the first of two paths, gives the changes before it. */
  lemma CutRecordIsDropped(rs: seq<Record>, r: Record, n: nat)
    requires AllWellFormed(rs) && WellFormed(r) && 0 < n < |PiecesOf(r)|
    ensures Changes(Filled(Split(Terminated(Pieces(rs) + PiecesOf(r)[..n])))) == AllMeant(rs)
  {
    var pieces := Pieces(rs) + PiecesOf(r)[..n];
    PiecesAreText(rs);
    assert AllNulFree(PiecesOf(r)[..n]) && NoneEmpty(PiecesOf(r)[..n]);
    SplitTerminated(pieces);
    FilledKeeps(pieces);
    ReadsInStep(rs, PiecesOf(r)[..n]);
    HeadIsRead(r, []);
    assert PiecesOf(r)[..n][0] == Code(r) && PiecesOf(r) + [] == PiecesOf(r);
    assert AllMeant(rs) + [] == AllMeant(rs);
  }

  /**
   For every list of records with non-empty NUL-free paths, parsing gives back each change, and stays
   aligned across renames, copies and records of a kind it skips.
   */
  lemma ParsingInvertsOutput(rs: seq<Record>)
    requires AllWellFormed(rs)
    ensures Changes(Filled(Split(Output(rs)))) == AllMeant(rs)
  {
    PiecesAreText(rs);
    SplitTerminated(Pieces(rs));
    FilledKeeps(Pieces(rs));
    ReadsInStep(rs, []);
    assert Pieces(rs) + [] == Pieces(rs) && AllMeant(rs) + [] == AllMeant(rs);
  }
}
