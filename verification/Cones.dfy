/** Sparse-cone statistics: the files of the index that lie under one of some directory prefixes. */
module Cones {
  import opened Prelude
  import opened Text

  // ---------- prefixes and components ----------

  function TrimStart(s: string): string {
    if s != "" && s[0] == '/' then TrimStart(s[1..]) else s
  }

  function TrimEnd(s: string): string {
    if s != "" && s[|s| - 1] == '/' then TrimEnd(s[..|s| - 1]) else s
  }

  function Trim(s: string): string {
    TrimEnd(TrimStart(s))
  }

  function Slashes(n: nat): string {
    if n == 0 then "" else ['/'] + Slashes(n - 1)
  }

  lemma {:induction false} TrimStartDrops(n: nat, s: string)
    requires s == "" || s[0] != '/'
    ensures TrimStart(Slashes(n) + s) == s
  {
    if n == 0 {
      assert Slashes(n) + s == s;
    } else {
      assert (Slashes(n) + s)[1..] == Slashes(n - 1) + s;
      TrimStartDrops(n - 1, s);
    }
  }

  lemma {:induction false} TrimEndDrops(s: string, n: nat)
    requires s == "" || s[|s| - 1] != '/'
    ensures TrimEnd(s + Slashes(n)) == s
  {
    if n == 0 {
      assert s + Slashes(n) == s;
    } else {
      SlashesEnd(n);
      assert (s + Slashes(n))[..|s + Slashes(n)| - 1] == s + Slashes(n - 1);
      TrimEndDrops(s, n - 1);
    }
  }

  lemma {:induction false} SlashesEnd(n: nat)
    requires n > 0
    ensures Slashes(n) == Slashes(n - 1) + ['/']
  {
    if n > 1 {
      SlashesEnd(n - 1);
      Regroup(['/'], Slashes(n - 2), ['/']);
    }
  }

  /** Whatever slashes stand around a name, they do not matter; slashes alone name nothing. */
  lemma SlashesDoNotMatter(before: nat, name: string, behind: nat)
    requires name != "" ==> name[0] != '/' && name[|name| - 1] != '/'
    ensures Trim(Slashes(before) + name + Slashes(behind)) == name
  {
    if name == "" {
      SlashesAdd(before, behind);
      assert Slashes(before) + name + Slashes(behind) == Slashes(before + behind) + "";
      TrimStartDrops(before + behind, "");
    } else {
      Regroup(Slashes(before), name, Slashes(behind));
      TrimStartDrops(before, name + Slashes(behind));
      TrimEndDrops(name, behind);
    }
  }

  lemma {:induction false} SlashesAdd(m: nat, n: nat)
    ensures Slashes(m) + Slashes(n) == Slashes(m + n)
  {
    if m == 0 {
      assert Slashes(0) + Slashes(n) == Slashes(n);
    } else {
      SlashesAdd(m - 1, n);
      Regroup(['/'], Slashes(m - 1), Slashes(n));
    }
  }

  predicate IsReal(prefix: string) {
    prefix != "" && prefix != "."
  }

  /** The cones that name a directory; the others are dropped. */
  function Prefixes(cones: seq<string>): seq<string> {
    if cones == [] then []
    else IfReal(Trim(cones[0])) + Prefixes(cones[1..])
  }

  function IfReal(prefix: string): seq<string> {
    if IsReal(prefix) then [prefix] else []
  }

  predicate Under(path: string, prefix: string) {
    path == prefix || (|path| > |prefix| && path[|prefix|] == '/' && prefix <= path)
  }

  predicate UnderAny(path: string, prefixes: seq<string>) {
    prefixes != [] && (Under(path, prefixes[0]) || UnderAny(path, prefixes[1..]))
  }

  /** A path as the list of the names between its slashes. */
  function Components(path: string): (names: seq<string>)
    ensures names != []
  {
    SplitOn(path, '/')
  }

  lemma FirstName(path: string)
    requires path != ""
    ensures var names, rest := Components(path), Components(path[1..]);
      if path[0] == '/' then names[0] == "" && names[1..] == rest
      else names[0] == [path[0]] + rest[0] && names[1..] == rest[1..]
  {
  }

  lemma {:induction false} SameNamesSamePath(a: string, b: string)
    requires Components(a) <= Components(b)
    ensures Under(b, a)
  {
    assert Components(a)[0] == Components(b)[0];
    if a == "" {
      if b != "" {
        FirstName(b);
      }
    } else {
      FirstName(a);
      assert b != "";
      FirstName(b);
      var ra, rb := Components(a[1..]), Components(b[1..]);
      assert a[0] == b[0] by {
        assert a[0] != '/' ==> Components(a)[0][0] == a[0];
        assert b[0] != '/' ==> Components(b)[0][0] == b[0];
      }
      if a[0] != '/' {
        assert ra[0] == Components(a)[0][1..] && rb[0] == Components(b)[0][1..];
        assert ra == [ra[0]] + ra[1..] && rb == [rb[0]] + rb[1..];
      }
      assert Components(a)[1..] <= Components(b)[1..];
      assert ra <= rb;
      SameNamesSamePath(a[1..], b[1..]);
      assert a == [a[0]] + a[1..] && b == [b[0]] + b[1..];
    }
  }

  /** The byte test with its slash boundary is exactly: the prefix's names are the first names of the path. */
  lemma UnderIsComponentwise(path: string, prefix: string)
    ensures Under(path, prefix) <==> Components(prefix) <= Components(path)
  {
    if Under(path, prefix) {
      if path != prefix {
        var tail := path[|prefix| + 1..];
        assert path == prefix + ['/'] + tail;
        SplitAtSeparator(prefix, '/', tail);
      }
    } else if Components(prefix) <= Components(path) {
      SameNamesSamePath(prefix, path);
    }
  }

  lemma {:induction false} UnderAnyIsExists(path: string, prefixes: seq<string>)
    ensures UnderAny(path, prefixes) <==> exists p :: p in prefixes && Components(p) <= Components(path)
  {
    if prefixes != [] {
      UnderIsComponentwise(path, prefixes[0]);
      UnderAnyIsExists(path, prefixes[1..]);
      assert forall p :: p in prefixes <==> p == prefixes[0] || p in prefixes[1..];
    }
  }

  // ---------- statistics ----------

  /** `Dir` is a collapsed tree and `Commit` a submodule. */
  datatype Mode = File | Executable | Symlink | Dir | Commit

  /** `path` is `None` when its bytes are not UTF-8. */
  datatype Entry = Entry(mode: Mode, path: Option<string>, size: nat)

  datatype ConeStats = ConeStats(fileCount: nat, diskSizeBytes: nat)

  predicate Counted(e: Entry, cones: seq<string>) {
    (e.mode.File? || e.mode.Executable? || e.mode.Symlink?) && (Prefixes(cones) == [] || (e.path.Some? && UnderAny(e.path.value, Prefixes(cones))))
  }

  function Select(index: seq<Entry>, cones: seq<string>): seq<Entry> {
    if index == [] then []
    else
      var rest := Select(index[..|index| - 1], cones);
      if Counted(index[|index| - 1], cones) then rest + [index[|index| - 1]] else rest
  }

  function Total(entries: seq<Entry>): nat {
    if entries == [] then 0 else Total(entries[..|entries| - 1]) + entries[|entries| - 1].size
  }

  lemma TotalSnoc(entries: seq<Entry>, e: Entry)
    ensures Total(entries + [e]) == Total(entries) + e.size
  {
    assert (entries + [e])[..|entries|] == entries;
  }

  /** The number of selected files, and their sizes summed with saturation at 64 bits. */
  function Stats(index: seq<Entry>, cones: seq<string>): ConeStats {
    var chosen := Select(index, cones);
    ConeStats(|chosen|, if Total(chosen) <= U64_MAX then Total(chosen) else U64_MAX)
  }

  lemma StatsSnoc(index: seq<Entry>, i: nat, cones: seq<string>)
    requires i < |index|
    ensures var before := Stats(index[..i], cones);
      before.diskSizeBytes <= U64_MAX && index[i].size <= U64_MAX ==>
        Stats(index[..i + 1], cones) ==
          if Counted(index[i], cones) then
            ConeStats(before.fileCount + 1, SatAdd(before.diskSizeBytes, index[i].size))
          else before
  {
    assert index[..i + 1][..i] == index[..i];
    TotalSnoc(Select(index[..i], cones), index[i]);
  }

  method ConeIndexStats(index: seq<Entry>, cones: seq<string>) returns (stats: ConeStats)
    requires forall e | e in index :: e.size < 0x1_0000_0000
    ensures stats == Stats(index, cones)
  {
    var prefixes := Prefixes(cones);
    var countAll := prefixes == [];
    var fileCount: nat := 0;
    var diskSizeBytes: u64 := 0;
    var i := 0;
    while i < |index|
      invariant 0 <= i <= |index|
      invariant ConeStats(fileCount, diskSizeBytes) == Stats(index[..i], cones)
    {
      var entry := index[i];
      StatsSnoc(index, i, cones);
      i := i + 1;
      if !(entry.mode.File? || entry.mode.Executable? || entry.mode.Symlink?) {
        continue;
      }
      if entry.path.None? {
        if countAll {
          fileCount := fileCount + 1;
          diskSizeBytes := SatAdd(diskSizeBytes, entry.size);
        }
        continue;
      }
      if countAll || UnderAny(entry.path.value, prefixes) {
        fileCount := fileCount + 1;
        diskSizeBytes := SatAdd(diskSizeBytes, entry.size);
      }
    }
    assert index[..i] == index;
    stats := ConeStats(fileCount, diskSizeBytes);
  }

  // ---------- what is counted ----------

  /** The cone names a directory, and not the whole tree. */
  predicate NamesDirectory(cone: string) {
    Trim(cone) !in {"", "."}
  }

  /** The file lies in the directory a cone names, name by name, or no cone names one. */
  ghost predicate InCones(path: Option<string>, cones: seq<string>) {
    || (forall c | c in cones :: !NamesDirectory(c))
    || (path.Some? && exists c :: c in cones && NamesDirectory(c) && Components(Trim(c)) <= Components(path.value))
  }

  lemma {:induction false} PrefixesAre(cones: seq<string>)
    ensures forall p :: p in Prefixes(cones) <==> exists c :: c in cones && NamesDirectory(c) && Trim(c) == p
  {
    if cones != [] {
      PrefixesAre(cones[1..]);
      forall p ensures p in Prefixes(cones) <==> exists c :: c in cones && NamesDirectory(c) && Trim(c) == p {
        if p in IfReal(Trim(cones[0])) {
          assert cones[0] in cones && NamesDirectory(cones[0]) && Trim(cones[0]) == p;
        }
        if p in Prefixes(cones[1..]) {
          var c :| c in cones[1..] && NamesDirectory(c) && Trim(c) == p;
          assert c in cones;
        }
        if c :| c in cones && NamesDirectory(c) && Trim(c) == p {
          assert c != cones[0] ==> c in cones[1..];
        }
      }
    }
  }

  /** An entry is counted exactly if it is a file, executable or symbolic link inside the cones. */
  lemma CountedExactly(e: Entry, cones: seq<string>)
    ensures Counted(e, cones) <==> e.mode !in {Dir, Commit} && InCones(e.path, cones)
  {
    PrefixesAre(cones);
    assert Prefixes(cones) != [] ==> Prefixes(cones)[0] in Prefixes(cones);
    assert Prefixes(cones) == [] <==> forall c | c in cones :: !NamesDirectory(c) by {
      if c :| c in cones && NamesDirectory(c) {
        assert Trim(c) in Prefixes(cones);
      }
    }
    if e.path.Some? {
      UnderAnyIsExists(e.path.value, Prefixes(cones));
      if Counted(e, cones) && Prefixes(cones) != [] {
        var p :| p in Prefixes(cones) && Components(p) <= Components(e.path.value);
        var c :| c in cones && NamesDirectory(c) && Trim(c) == p;
      }
      if c :| c in cones && NamesDirectory(c) && Components(Trim(c)) <= Components(e.path.value) {
        assert Trim(c) in Prefixes(cones);
      }
    }
  }

  /** The sizes at the given positions, added up. */
  ghost function SizesAt(index: seq<Entry>, at: set<nat>): nat
    requires forall k | k in at :: k < |index|
    decreases |index|
  {
    if index == [] then 0
    else
      var n := |index| - 1;
      SizesAt(index[..n], at - {n}) + if n in at then index[n].size else 0
  }

  /** The positions of the files inside the cones. */
  ghost function Inside(index: seq<Entry>, cones: seq<string>): set<nat> {
    set k: nat | k < |index| && index[k].mode !in {Dir, Commit} && InCones(index[k].path, cones)
  }

  /** The statistics are the number of files inside the cones, and their sizes added up, as far as 64 bits go. */
  lemma {:induction false} StatsExactly(index: seq<Entry>, cones: seq<string>)
    ensures Stats(index, cones).fileCount == |Inside(index, cones)|
    ensures Total(Select(index, cones)) == SizesAt(index, Inside(index, cones))
    ensures Stats(index, cones).diskSizeBytes == Min(SizesAt(index, Inside(index, cones)), U64_MAX)
  {
    if index == [] {
      assert Inside(index, cones) == {};
    } else {
      var n := |index| - 1;
      StatsExactly(index[..n], cones);
      InsideLast(index, cones);
      TotalSnoc(Select(index[..n], cones), index[n]);
    }
  }

  lemma InsideLast(index: seq<Entry>, cones: seq<string>)
    requires index != []
    ensures var n := |index| - 1;
      && Inside(index, cones) - {n} == Inside(index[..n], cones)
      && (n in Inside(index, cones) <==> Counted(index[n], cones))
      && |Inside(index, cones)| == |Inside(index[..n], cones)| + if Counted(index[n], cones) then 1 else 0
  {
    var n := |index| - 1;
    var inside, before := Inside(index, cones), Inside(index[..n], cones);
    CountedExactly(index[n], cones);
    assert inside - {n} == before;
    assert n !in before;
    if n in inside {
      assert inside == before + {n};
    } else {
      assert inside == before;
    }
  }

  // ---------- how the statistics depend on the cones ----------

  lemma {:induction false} PrefixesAppend(a: seq<string>, b: seq<string>)
    ensures Prefixes(a + b) == Prefixes(a) + Prefixes(b)
  {
    if a == [] {
      assert a + b == b;
    } else {
      assert (a + b)[1..] == a[1..] + b;
      PrefixesAppend(a[1..], b);
      Regroup(IfReal(Trim(a[0])), Prefixes(a[1..]), Prefixes(b));
    }
  }

  /** Every entry counted for `a` is counted for `b`. */
  ghost predicate Wider(a: seq<string>, b: seq<string>) {
    forall e: Entry :: Counted(e, a) ==> Counted(e, b)
  }

  lemma {:induction false} WiderCountsMore(index: seq<Entry>, a: seq<string>, b: seq<string>)
    requires Wider(a, b)
    ensures |Select(index, a)| <= |Select(index, b)| && Total(Select(index, a)) <= Total(Select(index, b))
  {
    if index != [] {
      var e := index[|index| - 1];
      WiderCountsMore(index[..|index| - 1], a, b);
      TotalSnoc(Select(index[..|index| - 1], a), e);
      TotalSnoc(Select(index[..|index| - 1], b), e);
    }
  }

  /** All the names of some directory of `a` begin with those of a directory of `b`, whatever the order. */
  predicate Covers(b: seq<string>, a: seq<string>) {
    forall p | p in Prefixes(a) :: exists q :: q in Prefixes(b) && Components(q) <= Components(p)
  }

  lemma CoveringIsWider(a: seq<string>, b: seq<string>)
    requires Covers(b, a) && Prefixes(a) != []
    ensures Wider(a, b)
  {
    forall e: Entry | Counted(e, a) ensures Counted(e, b) {
      UnderAnyIsExists(e.path.value, Prefixes(a));
      UnderAnyIsExists(e.path.value, Prefixes(b));
      var p :| p in Prefixes(a) && Components(p) <= Components(e.path.value);
      var q :| q in Prefixes(b) && Components(q) <= Components(p);
      assert Components(q) <= Components(e.path.value);
    }
  }

  /**
   Cones with at least one directory among them count no more than any cones that cover them, so
   more cones never count less, and neither their order nor repetition matters.
   */
  lemma StatsAreMonotone(index: seq<Entry>, a: seq<string>, b: seq<string>)
    requires Covers(b, a) && Prefixes(a) != []
    ensures Stats(index, a).fileCount <= Stats(index, b).fileCount
    ensures Stats(index, a).diskSizeBytes <= Stats(index, b).diskSizeBytes
  {
    CoveringIsWider(a, b);
    WiderCountsMore(index, a, b);
  }

  /** A cone that lies under one already given changes nothing. */
  lemma CoveredConeIsIgnored(index: seq<Entry>, cones: seq<string>, more: seq<string>)
    requires Prefixes(cones) != [] && Covers(cones, more)
    ensures Stats(index, cones + more) == Stats(index, cones)
  {
    PrefixesAppend(cones, more);
    forall p | p in Prefixes(cones) ensures exists q :: q in Prefixes(cones + more) && Components(q) <= Components(p) {
      assert p in Prefixes(cones + more) && Components(p) <= Components(p);
    }
    forall p | p in Prefixes(cones + more) ensures exists q :: q in Prefixes(cones) && Components(q) <= Components(p) {
      if p in Prefixes(cones) {
        assert Components(p) <= Components(p);
      }
    }
    CoveringIsWider(cones, cones + more);
    CoveringIsWider(cones + more, cones);
    WiderCountsMore(index, cones, cones + more);
    WiderCountsMore(index, cones + more, cones);
  }

  predicate WholeTree(cones: seq<string>) {
    Prefixes(cones) == []
  }

  /**
   Adding cones never takes files away, on any index, exactly unless the cones alone mean the whole
   tree and the added ones name a directory: `.` beside a directory is dropped, not honoured.
   */
  lemma AddingConesIsMonotoneUnless(cones: seq<string>, more: seq<string>)
    ensures Wider(cones, cones + more) <==> !(WholeTree(cones) && !WholeTree(more))
  {
    PrefixesAppend(cones, more);
    if Prefixes(cones) != [] {
      forall p | p in Prefixes(cones) ensures exists q :: q in Prefixes(cones + more) && Components(q) <= Components(p) {
        assert p in Prefixes(cones + more) && Components(p) <= Components(p);
      }
      CoveringIsWider(cones, cones + more);
    } else if Prefixes(more) != [] {
      var unnamed := Entry(File, None, 0);
      assert Counted(unnamed, cones) && !Counted(unnamed, cones + more);
    }
  }

  /** The root and one directory together count only the directory. */
  lemma RootBesideDirectoryIsDropped()
    ensures var index := [Entry(File, Some("app/x"), 1), Entry(File, Some("readme"), 1)];
      Stats(index, ["."]).fileCount == 2 && Stats(index, [".", "app"]).fileCount == 1
  {
    var index := [Entry(File, Some("app/x"), 1), Entry(File, Some("readme"), 1)];
    assert Trim(".") == "." && Trim("app") == "app";
    assert ["."][1..] == [] && [".", "app"][1..] == ["app"] && ["app"][1..] == [];
    assert Prefixes(["."]) == [] && Prefixes([".", "app"]) == ["app"];
    assert index[..1][..0] == [] && index[..2] == index;
    assert UnderAny("app/x", ["app"]);
    assert !UnderAny("readme", ["app"]);
    assert Select(index[..0], ["."]) == [] && Select(index[..0], [".", "app"]) == [];
    assert Select(index[..1], ["."]) == [index[0]] && Select(index[..1], [".", "app"]) == [index[0]];
  }
}
