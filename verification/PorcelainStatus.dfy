/** `git status --porcelain=v1 -z`: records of two status letters and a path, renames with a second path. */
module PorcelainStatus {
  import opened Prelude
  import opened Text
  import opened NulText

  datatype State = Untracked | Renamed(from: string) | Deleted | Added | Modified

  datatype Entry = Entry(path: string, state: State)

  predicate IsRename(x: char, y: char) {
    !(x == '?' && y == '?') && (x == 'R' || y == 'R')
  }

  function StateOf(x: char, y: char, from: string): State {
    if x == '?' && y == '?' then Untracked
    else if x == 'R' || y == 'R' then Renamed(from)
    else if x == 'D' || y == 'D' then Deleted
    else if x == 'A' || y == 'A' then Added
    else Modified
  }

  /** The record at the head of the pieces; a rename takes the next piece with it. */
  function EntryAt(pieces: seq<string>): Entry
    requires pieces != [] && |pieces[0]| >= 3
  {
    var rec := pieces[0];
    Entry(rec[3..], StateOf(rec[0], rec[1], if |pieces| > 1 then pieces[1] else ""))
  }

  function RestAfter(pieces: seq<string>): seq<string>
    requires pieces != [] && |pieces[0]| >= 3
  {
    if !IsRename(pieces[0][0], pieces[0][1]) then pieces[1..] else if |pieces| > 1 then pieces[2..] else []
  }

  /** The entries of a list of pieces. */
  function Entries(pieces: seq<string>): seq<Entry>
    decreases |pieces|
  {
    if pieces == [] then []
    else if |pieces[0]| < 3 then Entries(pieces[1..])
    else [EntryAt(pieces)] + Entries(RestAfter(pieces))
  }

  /** A byte that continues a character of several bytes. */
  predicate Continues(c: char) {
    0x80 <= c as int < 0xC0
  }

  /** Every piece taken for a record can be sliced behind its third byte; the original panics where one cannot. */
  predicate Sliceable(pieces: seq<string>)
    decreases |pieces|
  {
    if pieces == [] then true
    else if |pieces[0]| < 3 then Sliceable(pieces[1..])
    else (|pieces[0]| == 3 || !Continues(pieces[0][3])) && Sliceable(RestAfter(pieces))
  }

  /** The entries of the output, or `None` for a panic. */
  function Parsed(stdout: string): Option<seq<Entry>> {
    if Sliceable(Split(stdout)) then Some(Entries(Split(stdout))) else None
  }

  /** One round of the loop, once the record has been sliced. */
  method ReadRecord(rec: string, chunks: seq<string>) returns (entry: Entry, rest: seq<string>)
    requires |rec| >= 3
    ensures entry == EntryAt([rec] + chunks) && rest == RestAfter([rec] + chunks)
  {
    var x, y := rec[0], rec[1];
    var path := rec[3..];
    rest := chunks;
    var state;
    if x == '?' && y == '?' {
      state := Untracked;
    } else if x == 'R' || y == 'R' {
      var from := "";
      if rest != [] {
        from := rest[0];
        rest := rest[1..];
      }
      state := Renamed(from);
    } else if x == 'D' || y == 'D' {
      state := Deleted;
    } else if x == 'A' || y == 'A' {
      state := Added;
    } else {
      state := Modified;
    }
    entry := Entry(path, state);
  }

  method ParsePorcelainV1(stdout: string) returns (report: Option<seq<Entry>>)
    ensures report == Parsed(stdout)
  {
    var files := [];
    var chunks := Split(stdout);
    while chunks != []
      invariant files + Entries(chunks) == Entries(Split(stdout))
      invariant Sliceable(chunks) == Sliceable(Split(stdout))
      decreases |chunks|
    {
      var rec := chunks[0];
      if |rec| < 3 {
        chunks := chunks[1..];
        continue;
      }
      if |rec| > 3 && Continues(rec[3]) {
        return None;
      }
      assert [rec] + chunks[1..] == chunks;
      var entry, rest := ReadRecord(rec, chunks[1..]);
      Regroup(files, [entry], Entries(rest));
      files := files + [entry];
      chunks := rest;
    }
    assert files + [] == files;
    return Some(files);
  }

  // ---------- what git writes ----------

  /** A record: its letters, its path, and for a rename or a copy the path it came from. */
  datatype Record = Record(x: char, y: char, path: string, from: string)

  /** Renames and copies are the records git writes two paths for. */
  predicate HasOrigin(r: Record) {
    r.x == 'R' || r.y == 'R' || r.x == 'C' || r.y == 'C'
  }

  predicate IsCopy(r: Record) {
    HasOrigin(r) && !IsRename(r.x, r.y)
  }

  predicate WellFormed(r: Record) {
    r.x != NUL && r.y != NUL && NulFree(r.path) && NulFree(r.from) && (r.path != "" ==> !Continues(r.path[0]))
  }

  function Head(r: Record): string {
    [r.x, r.y, ' '] + r.path
  }

  function Origin(r: Record): seq<string> {
    if HasOrigin(r) then [r.from] else []
  }

  function Pieces(rs: seq<Record>): seq<string> {
    if rs == [] then []
    else [Head(rs[0])] + Origin(rs[0]) + Pieces(rs[1..])
  }

  function Output(rs: seq<Record>): string {
    Terminated(Pieces(rs))
  }

  /** A rename in either column comes before a deletion in either, and that before an addition; any other letters modify. */
  function Says(letters: set<char>, from: string): State {
    if letters == {'?'} then Untracked
    else if 'R' in letters then Renamed(from)
    else if 'D' in letters then Deleted
    else if 'A' in letters then Added
    else Modified
  }

  function EntryOf(r: Record): Entry {
    Entry(r.path, Says({r.x, r.y}, r.from))
  }

  /** The columns are alike: what the parser makes of two letters depends on which they are, not on where. */
  lemma StateIsWhatIsSaid(x: char, y: char, from: string)
    ensures StateOf(x, y, from) == Says({x, y}, from)
  {
    assert {x, y} == {'?'} ==> x in {'?'} && y in {'?'};
  }

  function Meant(rs: seq<Record>): seq<Entry> {
    if rs == [] then [] else [EntryOf(rs[0])] + Meant(rs[1..])
  }

  predicate AllWellFormed(rs: seq<Record>) {
    forall r | r in rs :: WellFormed(r)
  }

  lemma {:induction false} PiecesNulFree(rs: seq<Record>)
    requires AllWellFormed(rs)
    ensures AllNulFree(Pieces(rs))
  {
    if rs != [] {
      assert WellFormed(rs[0]);
      PiecesNulFree(rs[1..]);
    }
  }

  /** The pieces of the output of the records, with the empty piece behind the last terminator. */
  function Rest(rs: seq<Record>): seq<string> {
    Pieces(rs) + [""]
  }

  lemma SplitOutput(rs: seq<Record>)
    requires AllWellFormed(rs)
    ensures Split(Output(rs)) == Rest(rs)
  {
    PiecesNulFree(rs);
    SplitTerminated(Pieces(rs));
  }

  /** No copy has an origin long enough to be taken for a record. */
  predicate CopiesAreShort(rs: seq<Record>) {
    rs == [] || ((IsCopy(rs[0]) ==> |rs[0].from| < 3) && CopiesAreShort(rs[1..]))
  }

  lemma RestOf(rs: seq<Record>)
    requires rs != []
    ensures Rest(rs)[0] == Head(rs[0]) && Rest(rs)[1..] == Origin(rs[0]) + Rest(rs[1..])
    ensures HasOrigin(rs[0]) ==> |Rest(rs)| > 1 && Rest(rs)[1] == rs[0].from && Rest(rs)[2..] == Rest(rs[1..])
    ensures !HasOrigin(rs[0]) ==> Rest(rs)[1..] == Rest(rs[1..])
  {
    var r := rs[0];
    var tail := Rest(rs[1..]);
    assert Rest(rs) == [Head(r)] + (Origin(r) + tail);
    assert ([Head(r)] + (Origin(r) + tail))[1..] == Origin(r) + tail;
    if HasOrigin(r) {
      assert [Head(r)] + (Origin(r) + tail) == [Head(r), r.from] + tail;
    }
  }

  /** A piece behind which the parser is in step is skipped if it is short. */
  lemma OriginIsRead(r: Record, tail: seq<string>)
    requires HasOrigin(r)
    ensures Entries(Origin(r) + tail) == if |r.from| >= 3 then Entries([r.from] + tail) else Entries(tail)
  {
    assert (Origin(r) + tail)[1..] == tail;
  }

  /** The head of a record's pieces is taken for that record, and its origin with it if it is a rename. */
  lemma HeadIsTaken(rs: seq<Record>)
    requires rs != []
    ensures |Rest(rs)[0]| >= 3 && EntryAt(Rest(rs)) == EntryOf(rs[0])
    ensures RestAfter(Rest(rs)) ==
      if IsRename(rs[0].x, rs[0].y) then Rest(rs[1..]) else Origin(rs[0]) + Rest(rs[1..])
  {
    RestOf(rs);
    StateIsWhatIsSaid(rs[0].x, rs[0].y, rs[0].from);
    assert Head(rs[0])[3..] == rs[0].path;
  }

  /** Reading the record at the head of the pieces. */
  lemma HeadIsRead(rs: seq<Record>)
    requires rs != []
    ensures var tail := Rest(rs[1..]);
      Entries(Rest(rs)) == [EntryOf(rs[0])] +
        (if IsCopy(rs[0]) && |rs[0].from| >= 3 then Entries([rs[0].from] + tail) else Entries(tail))
  {
    HeadIsTaken(rs);
    if HasOrigin(rs[0]) {
      OriginIsRead(rs[0], Rest(rs[1..]));
    } else {
      assert Origin(rs[0]) + Rest(rs[1..]) == Rest(rs[1..]);
    }
  }

  lemma {:induction false} ReadsInStep(rs: seq<Record>)
    requires CopiesAreShort(rs)
    ensures Entries(Rest(rs)) == Meant(rs)
  {
    if rs == [] {
      assert Rest(rs) == [""] && [""][1..] == [];
    } else {
      HeadIsRead(rs);
      ReadsInStep(rs[1..]);
    }
  }

  lemma {:induction false} SlicesInStep(rs: seq<Record>)
    requires CopiesAreShort(rs) && AllWellFormed(rs)
    ensures Sliceable(Rest(rs))
  {
    if rs == [] {
      assert Rest(rs) == [""] && [""][1..] == [];
    } else {
      assert WellFormed(rs[0]);
      RestOf(rs);
      SlicesInStep(rs[1..]);
      if IsCopy(rs[0]) {
        assert Rest(rs)[1..][0] == rs[0].from && Rest(rs)[1..][1..] == Rest(rs)[2..];
      }
    }
  }

  // ---------- out of step for good ----------

  /** A piece taken for a record: one entry, and the next piece with it if it looks like a rename. */
  lemma StrayIsRead(stray: string, tail: seq<string>)
    requires |stray| >= 3 && tail != []
    ensures Entries([stray] + tail) ==
      if IsRename(stray[0], stray[1]) then [Entry(stray[3..], Renamed(tail[0]))] + Entries(tail[1..])
      else [Entry(stray[3..], StateOf(stray[0], stray[1], ""))] + Entries(tail)
  {
    assert ([stray] + tail)[1..] == tail && ([stray] + tail)[2..] == tail[1..];
  }

  /** What is left of the pieces once the next record's head has been swallowed. */
  lemma HeadIsSwallowed(rs: seq<Record>)
    requires rs != []
    ensures Rest(rs)[0] == Head(rs[0])
    ensures Entries(Rest(rs)[1..]) ==
      if HasOrigin(rs[0]) && |rs[0].from| >= 3 then Entries([rs[0].from] + Rest(rs[1..])) else Entries(Rest(rs[1..]))
  {
    RestOf(rs);
    if HasOrigin(rs[0]) {
      OriginIsRead(rs[0], Rest(rs[1..]));
    }
  }

  lemma Peel(extra: seq<Entry>, tail: seq<Entry>, meant: seq<Entry>)
    requires extra != [] && extra + tail == meant
    ensures meant != [] && extra[0] == meant[0] && extra[1..] + tail == meant[1..]
  {
    assert (extra + tail)[0] == extra[0] && (extra + tail)[1..] == extra[1..] + tail;
  }

  lemma MeantRest(rs: seq<Record>)
    requires Meant(rs) != []
    ensures rs != [] && Meant(rs)[0] == EntryOf(rs[0]) && Meant(rs)[1..] == Meant(rs[1..])
  {
  }

  /** Entries too many never go away again. */
  lemma {:induction false} TooManyStay(extra: seq<Entry>, rs: seq<Record>)
    requires extra != []
    ensures extra + Entries(Rest(rs)) != Meant(rs)
    decreases |rs|, 0
  {
    if extra + Entries(Rest(rs)) == Meant(rs) {
      Peel(extra, Entries(Rest(rs)), Meant(rs));
      MeantRest(rs);
      HeadIsRead(rs);
      var more := extra[1..] + [EntryOf(rs[0])];
      var tail := Rest(rs[1..]);
      if IsCopy(rs[0]) && |rs[0].from| >= 3 {
        StrayStays(more, rs[0].from, rs[1..]);
        Regroup(extra[1..], [EntryOf(rs[0])], Entries([rs[0].from] + tail));
      } else {
        TooManyStay(more, rs[1..]);
        Regroup(extra[1..], [EntryOf(rs[0])], Entries(tail));
      }
    }
  }

  lemma {:induction false} StrayStays(extra: seq<Entry>, stray: string, rs: seq<Record>)
    requires extra != [] && |stray| >= 3
    ensures extra + Entries([stray] + Rest(rs)) != Meant(rs)
    decreases |rs|, 1
  {
    if extra + Entries([stray] + Rest(rs)) == Meant(rs) {
      Peel(extra, Entries([stray] + Rest(rs)), Meant(rs));
      MeantRest(rs);
      StrayIsRead(stray, Rest(rs));
      if IsRename(stray[0], stray[1]) {
        SwallowingStrayStays(extra[1..], Entry(stray[3..], Renamed(Rest(rs)[0])), rs);
      } else {
        var bogus := Entry(stray[3..], StateOf(stray[0], stray[1], ""));
        TooManyStay(extra + [bogus], rs);
        Regroup(extra, [bogus], Entries(Rest(rs)));
      }
    }
  }

  lemma {:induction false} SwallowingStrayStays(extra: seq<Entry>, bogus: Entry, rs: seq<Record>)
    requires rs != []
    ensures extra + ([bogus] + Entries(Rest(rs)[1..])) != Meant(rs[1..])
    decreases |rs|, 0
  {
    HeadIsSwallowed(rs);
    if HasOrigin(rs[0]) && |rs[0].from| >= 3 {
      StrayStays(extra + [bogus], rs[0].from, rs[1..]);
      Regroup(extra, [bogus], Entries([rs[0].from] + Rest(rs[1..])));
    } else {
      TooManyStay(extra + [bogus], rs[1..]);
      Regroup(extra, [bogus], Entries(Rest(rs[1..])));
    }
  }

  /** A stray piece right at the start is never made up for either. */
  lemma {:induction false} StrayShows(stray: string, rs: seq<Record>)
    requires |stray| >= 3
    ensures Entries([stray] + Rest(rs)) != Meant(rs)
    decreases |rs|
  {
    StrayIsRead(stray, Rest(rs));
    if !IsRename(stray[0], stray[1]) {
      TooManyStay([Entry(stray[3..], StateOf(stray[0], stray[1], ""))], rs);
    } else if rs != [] {
      HeadIsSwallowed(rs);
      var r := rs[0];
      if Renamed(Head(r)) == Says({r.x, r.y}, r.from) {
        assert r.from == Head(r);
        StrayShows(r.from, rs[1..]);
        assert Meant(rs)[1..] == Meant(rs[1..]);
        assert Entries([stray] + Rest(rs))[1..] == Entries([r.from] + Rest(rs[1..]));
      } else {
        assert Meant(rs)[0].state != Renamed(Head(r));
      }
    }
  }

  lemma {:induction false} OutOfStep(rs: seq<Record>)
    requires !CopiesAreShort(rs)
    ensures Entries(Rest(rs)) != Meant(rs)
  {
    HeadIsRead(rs);
    if IsCopy(rs[0]) && |rs[0].from| >= 3 {
      StrayShows(rs[0].from, rs[1..]);
      assert Entries(Rest(rs))[1..] == Entries([rs[0].from] + Rest(rs[1..]));
    } else {
      OutOfStep(rs[1..]);
      assert Entries(Rest(rs))[1..] == Entries(Rest(rs[1..]));
    }
    assert Meant(rs)[1..] == Meant(rs[1..]);
  }

  /**
   For every list of records git can write, parsing gives back exactly those records if and only if
   no copy record came from a path of three bytes or more: the parser takes copies for one-path records.
   */
  lemma ParsingInvertsOutput(rs: seq<Record>)
    requires AllWellFormed(rs)
    ensures Parsed(Output(rs)) == Some(Meant(rs)) <==> CopiesAreShort(rs)
  {
    SplitOutput(rs);
    if CopiesAreShort(rs) {
      ReadsInStep(rs);
      SlicesInStep(rs);
    } else {
      OutOfStep(rs);
    }
  }

  lemma LastRename(r: Record, pieces: seq<string>)
    requires WellFormed(r) && IsRename(r.x, r.y) && (pieces == [Head(r)] || pieces == [Head(r), ""])
    ensures Sliceable(pieces) && Entries(pieces) == [Entry(r.path, Renamed(""))]
  {
    assert Head(r)[3..] == r.path && (r.path != "" ==> Head(r)[3] == r.path[0]);
    assert RestAfter(pieces) == [];
    assert EntryAt(pieces) == Entry(r.path, Renamed(""));
  }

  /** Output that ends with the path of a rename still gives the rename, from nowhere. */
  lemma CutRenameIsFromNowhere(r: Record)
    requires WellFormed(r) && IsRename(r.x, r.y)
    ensures Parsed(Head(r)) == Some([Entry(r.path, Renamed(""))])
    ensures Parsed(Head(r) + [NUL]) == Some([Entry(r.path, Renamed(""))])
  {
    assert NUL !in Head(r);
    SplitWithout(Head(r), NUL);
    LastRename(r, [Head(r)]);
    SplitAtSeparator(Head(r), NUL, "");
    assert Head(r) + [NUL] + "" == Head(r) + [NUL] && [Head(r)] + [""] == [Head(r), ""];
    LastRename(r, [Head(r), ""]);
  }

  lemma CopyPieces(rs: seq<Record>, from: string)
    requires rs == [Record('C', ' ', "b", from)]
    ensures Pieces(rs) == ["C  b", from] && Output(rs) == "C  b\0" + (from + "\0") && Rest(rs) == ["C  b"] + [from, ""]
  {
    assert Head(rs[0]) == "C  b";
    assert Pieces(rs[1..]) == [];
    assert ["C  b", from][1..] == [from] && [from][1..] == [];
    assert Terminated([from]) == from + "\0";
  }

  lemma CopyEntries(rs: seq<Record>, from: string)
    requires rs == [Record('C', ' ', "b", from)] && |from| >= 3 && !IsRename(from[0], from[1])
    ensures Entries(Rest(rs)) == [Entry("b", Modified), Entry(from[3..], StateOf(from[0], from[1], ""))]
  {
    HeadIsRead(rs);
    assert rs[1..] == [] && Rest(rs[1..]) == [""];
    StrayIsRead(from, [""]);
    assert [""][1..] == [] && Entries([""]) == [];
  }

  /** A copy of `a.txt` to `b` is reported with a second change, to a file that is not there. */
  lemma CopyIsMisread(rs: seq<Record>)
    requires rs == [Record('C', ' ', "b", "a.txt")]
    ensures Output(rs) == "C  b\0" + "a.txt\0"
    ensures Parsed(Output(rs)) == Some([Entry("b", Modified), Entry("xt", Modified)])
  {
    var from := rs[0].from;
    CopyPieces(rs, from);
    SplitOutput(rs);
    CopyEntries(rs, from);
    CopySlices(from);
    assert from[3..] == "xt";
  }

  lemma CopySlices(from: string)
    requires |from| > 3 && !IsRename(from[0], from[1])
    ensures Sliceable(["C  b"] + [from, ""]) <==> !Continues(from[3])
  {
    assert (["C  b"] + [from, ""])[1..] == [from, ""] && [from, ""][1..] == [""] && [""][1..] == [];
    assert Sliceable([""]);
  }

  /** A copy of the file whose name is `ab` and an accented letter of two bytes makes the parser panic. */
  lemma CopyCanPanic(rs: seq<Record>)
    requires rs == [Record('C', ' ', "b", ['a', 'b', 0xC3 as char, 0xA9 as char])]
    ensures AllWellFormed(rs) && Parsed(Output(rs)) == None
  {
    CopyPieces(rs, rs[0].from);
    SplitOutput(rs);
    CopySlices(rs[0].from);
  }
}
