/** Cutting text at separators and into lines. */
module Text {
  import opened Prelude

  /** `str::split`: the pieces between the separators, one more than there are of them. */
  function SplitOn(s: string, c: char): (pieces: seq<string>)
    ensures pieces != []
  {
    if s == "" then [""]
    else
      var rest := SplitOn(s[1..], c);
      if s[0] == c then [""] + rest else [[s[0]] + rest[0]] + rest[1..]
  }

  /** Where a separator stands, the pieces before it and behind it are pieces of the whole. */
  lemma {:induction false} SplitAtSeparator(a: string, c: char, b: string)
    ensures SplitOn(a + [c] + b, c) == SplitOn(a, c) + SplitOn(b, c)
  {
    var s := a + [c] + b;
    if a == "" {
      assert s[0] == c && s[1..] == b;
    } else {
      assert s[0] == a[0] && s[1..] == a[1..] + [c] + b;
      SplitAtSeparator(a[1..], c, b);
      var rest := SplitOn(a[1..], c);
      if a[0] == c {
        Regroup([""], rest, SplitOn(b, c));
      } else {
        assert (rest + SplitOn(b, c))[1..] == rest[1..] + SplitOn(b, c);
        Regroup([[a[0]] + rest[0]], rest[1..], SplitOn(b, c));
      }
    }
  }

  lemma {:induction false} SplitWithout(a: string, c: char)
    requires c !in a
    ensures SplitOn(a, c) == [a]
  {
    if a != "" {
      SplitWithout(a[1..], c);
      assert [a[0]] + a[1..] == a;
    }
  }

  // ---------- the first separator ----------

  function IndexOf(s: string, c: char): (i: nat)
    ensures i <= |s| && c !in s[..i] && (i < |s| ==> s[i] == c)
  {
    if s == "" || s[0] == c then 0 else 1 + IndexOf(s[1..], c)
  }

  /** `str::split_once`. */
  function SplitOnce(s: string, c: char): Option<(string, string)> {
    var i := IndexOf(s, c);
    if i == |s| then None else Some((s[..i], s[i + 1..]))
  }

  lemma SplitsAtFirst(a: string, c: char, b: string)
    requires c !in a
    ensures SplitOnce(a + [c] + b, c) == Some((a, b))
  {
    IndexOfFirst(a, c, b);
    assert (a + [c] + b)[..|a|] == a && (a + [c] + b)[|a| + 1..] == b;
  }

  lemma {:induction false} IndexOfFirst(a: string, c: char, b: string)
    requires c !in a
    ensures IndexOf(a + [c] + b, c) == |a|
  {
    if a != "" {
      assert (a + [c] + b)[1..] == a[1..] + [c] + b;
      IndexOfFirst(a[1..], c, b);
    }
  }

  lemma NoSplit(a: string, c: char)
    requires c !in a
    ensures SplitOnce(a, c) == None
  {
  }

  // ---------- lines ----------

  function StripReturn(s: string): string {
    if s != "" && s[|s| - 1] == '\r' then s[..|s| - 1] else s
  }

  /** `str::lines`: a last line without a newline keeps its carriage return. */
  function Lines(s: string): seq<string>
    decreases |s|
  {
    if s == "" then []
    else
      match SplitOnce(s, '\n')
      case None => [s]
      case Some((line, rest)) => [StripReturn(line)] + Lines(rest)
  }

  lemma FirstLine(line: string, rest: string)
    requires '\n' !in line
    ensures Lines(line + ['\n'] + rest) == [StripReturn(line)] + Lines(rest)
  {
    SplitsAtFirst(line, '\n', rest);
  }

  lemma FirstOfMore(line: string, rest: string, more: string)
    requires '\n' !in line
    ensures Lines(line + ['\n'] + rest + more) == [StripReturn(line)] + Lines(rest + more)
  {
    FirstLine(line, rest + more);
    Regroup(line + ['\n'], rest, more);
  }

  /** Where a newline stands, the lines before it and behind it are lines of the whole. */
  lemma {:induction false} LinesAtNewline(a: string, b: string)
    ensures Lines(a + ['\n'] + b) == Lines(a + ['\n']) + Lines(b)
    decreases |a|
  {
    if '\n' !in a {
      FirstLine(a, b);
      FirstLine(a, "");
      assert a + ['\n'] + "" == a + ['\n'];
    } else {
      var i := IndexOf(a, '\n');
      var line, rest := a[..i], a[i + 1..];
      assert a == line + ['\n'] + rest;
      LinesAtNewline(rest, b);
      FirstOfMore(line, rest, ['\n'] + b);
      FirstOfMore(line, rest, ['\n']);
      Regroup(a, ['\n'], b);
      Regroup(rest, ['\n'], b);
      Regroup([StripReturn(line)], Lines(rest + ['\n']), Lines(b));
    }
  }
}
