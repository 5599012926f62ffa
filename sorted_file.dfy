/** The `.sorted` file reader `load_sorted`. The file is a list of setup
    blocks: a header line of `#`, a `Setup X` line and the setup's YAML
    lines, a rule line starting `#-`, then the file table; the last block
    is closed by `##end`. The file is given as the sequence of its lines,
    each with its line terminator, and `readline` past the end gives "". */
module SortedFile {
  import opened Common
  import opened PyText

  /** `line[0:|pre|] == pre` */
  predicate Starts(line: string, pre: string) {
    Slice(line, 0, |pre|) == pre
  }

  /** The three lists `load_sorted` returns. */
  datatype Sorted = Sorted(setups: seq<string>, setupLines: seq<seq<string>>, setupFiles: seq<seq<string>>)

  const BadFormat := "Bad .sorted fomatting"
  const NoRule := "end of file inside the setup lines: the reader never stops"
  const NoEnd := "end of file inside the file table: the reader never stops"

  /** The first line of `rest` that starts with `pre`, or None when there is none. */
  function FindStart(rest: seq<string>, pre: string): (r: Option<nat>)
    ensures r.Some? ==> r.value < |rest| && Starts(rest[r.value], pre)
    ensures r.Some? ==> forall q :: 0 <= q < r.value ==> !Starts(rest[q], pre)
    ensures r.None? ==> forall q :: 0 <= q < |rest| ==> !Starts(rest[q], pre)
  {
    if |rest| == 0 then None
    else if Starts(rest[0], pre) then Some(0)
    else match FindStart(rest[1..], pre)
      case None => None
      case Some(q) => Some(q + 1)
  }

  /** The first-line characterisation pins the search result down. */
  lemma FindStartAt(rest: seq<string>, pre: string, q: nat)
    requires q < |rest| && Starts(rest[q], pre)
    requires forall k :: 0 <= k < q ==> !Starts(rest[k], pre)
    ensures FindStart(rest, pre) == Some(q)
  {
  }

  lemma StartsWith(s: string, pre: string)
    requires pre <= s
    ensures Starts(s, pre)
  {
    assert Slice(s, 0, |pre|) == s[..|pre|];
  }

  lemma StartsNot(s: string, pre: string, i: nat)
    requires i < |pre| && (i < |s| ==> s[i] != pre[i])
    ensures !Starts(s, pre)
  {
    SlicePrefix(s, pre);
  }

  /** The setup names a block of lines yields: `line[6:].strip()` of every
      line containing `Setup`, in order. */
  function Names(block: seq<string>): seq<string>
  {
    if |block| == 0 then []
    else
      var line := block[|block| - 1];
      Names(block[..|block| - 1]) + (if Contains(line, "Setup") then [Strip(From(line, 6))] else [])
  }

  lemma {:induction false} NamesConcat(a: seq<string>, b: seq<string>)
    ensures Names(a + b) == Names(a) + Names(b)
    decreases |b|
  {
    if |b| > 0 {
      assert (a + b)[..|a + b| - 1] == a + b[..|b| - 1];
      NamesConcat(a, b[..|b| - 1]);
    } else {
      assert a + b == a;
    }
  }

  /** Adds the lists of `more` after those of `acc`; an error stays an error. */
  function Prepend(acc: Sorted, more: Result<Sorted>): Result<Sorted>
  {
    if more.Err? then more
    else Ok(Sorted(acc.setups + more.value.setups, acc.setupLines + more.value.setupLines,
                   acc.setupFiles + more.value.setupFiles))
  }

  /** The blocks read from the lines `rest` not read yet, `fline` being the
      line last read: a header or the `##` line that closed a file table. */
  function ParseFrom(rest: seq<string>, fline: string): (r: Result<Sorted>)
    requires Starts(fline, "##")
    ensures r.Ok? ==> |r.value.setupLines| == |r.value.setupFiles|
    decreases |rest|
  {
    if Starts(fline, "##end") then Ok(Sorted([], [], []))
    else match FindStart(rest, "#-")
      case None => Err(NoRule)
      case Some(q) =>
        var tail := rest[q + 1..];
        match FindStart(tail, "##")
          case None => Err(NoEnd)
          case Some(q2) =>
            Prepend(Sorted(Names(rest[..q + 1]), [rest[..q]], [tail[..q2]]), ParseFrom(tail[q2 + 1..], tail[q2]))
  }

  /** What `load_sorted` returns for a file with these lines. */
  function LoadSortedSpec(lines: seq<string>): (r: Result<Sorted>)
    ensures r.Ok? ==> |r.value.setupLines| == |r.value.setupFiles|
    ensures |lines| == 0 || !Starts(lines[0], "####") ==> r == Err(BadFormat)
  {
    if |lines| == 0 || !Starts(lines[0], "####") then Err(BadFormat)
    else ParseFrom(lines[1..], lines[0])
  }

  lemma PrependPrepend(a: Sorted, b: Sorted, r: Result<Sorted>)
    ensures Prepend(a, Prepend(b, r))
         == Prepend(Sorted(a.setups + b.setups, a.setupLines + b.setupLines, a.setupFiles + b.setupFiles), r)
  {
    if r.Ok? {
      assert a.setups + (b.setups + r.value.setups) == a.setups + b.setups + r.value.setups;
      assert a.setupLines + (b.setupLines + r.value.setupLines) == a.setupLines + b.setupLines + r.value.setupLines;
      assert a.setupFiles + (b.setupFiles + r.value.setupFiles) == a.setupFiles + b.setupFiles + r.value.setupFiles;
    }
  }

  lemma PrependEmpty(r: Result<Sorted>)
    ensures Prepend(Sorted([], [], []), r) == r
  {
    if r.Ok? {
      assert [] + r.value.setups == r.value.setups;
      assert [] + r.value.setupLines == r.value.setupLines;
      assert [] + r.value.setupFiles == r.value.setupFiles;
    }
  }

  /** The setup-line loop of `load_sorted` over the lines `rest0` not yet
      read: reads up to and including the first line starting `#-`,
      recording the name of every line that mentions `Setup`. When no such
      line is left the source reads on forever. */
  method ReadSetupLines(rest0: seq<string>, fline0: string, setups0: seq<string>)
    returns (found: bool, rest: seq<string>, fline: string, setupLines: seq<string>, setups: seq<string>)
    requires Starts(fline0, "##")
    ensures found <==> FindStart(rest0, "#-").Some?
    ensures found ==> var q := FindStart(rest0, "#-").value;
      rest == rest0[q + 1..] && fline == rest0[q] && setupLines == rest0[..q + 1]
      && setups == setups0 + Names(rest0[..q + 1])
  {
    rest, fline, setupLines, setups := rest0, fline0, [], setups0;
    HashesNotRule(fline0);
    ghost var n := 0;
    while !Starts(fline, "#-")
      invariant n <= |rest0| && rest == rest0[n..]
      invariant fline == if n == 0 then fline0 else rest0[n - 1]
      invariant setupLines == rest0[..n]
      invariant setups == setups0 + Names(rest0[..n])
      invariant forall k :: 0 <= k < n - 1 ==> !Starts(rest0[k], "#-")
      decreases |rest|
    {
      if |rest| == 0 {
        return false, rest, fline, setupLines, setups;
      }
      NamesStep(rest0, n);
      fline := rest[0];
      rest := rest[1..];
      n := n + 1;
      if Contains(fline, "Setup") {
        setups := setups + [Strip(From(fline, 6))];
      }
      setupLines := setupLines + [fline];
    }
    FindStartAt(rest0, "#-", n - 1);
    found := true;
  }

  /** A line starting `##` does not start `#-`. */
  lemma HashesNotRule(s: string)
    requires Starts(s, "##")
    ensures !Starts(s, "#-")
  {
    SlicePrefix(s, "##");
    StartsNot(s, "#-", 1);
  }

  /** Reading one more line adds its name, if it has one. */
  lemma NamesStep(lines: seq<string>, n: nat)
    requires n < |lines|
    ensures lines[..n + 1] == lines[..n] + [lines[n]]
    ensures Names(lines[..n + 1])
         == Names(lines[..n]) + (if Contains(lines[n], "Setup") then [Strip(From(lines[n], 6))] else [])
  {
    assert lines[..n + 1][..n] == lines[..n];
  }

  /** The data-file loop of `load_sorted`: reads up to and including the
      first line starting `##`. When no such line is left the source reads
      on forever. */
  method ReadDataFiles(rest1: seq<string>, fline1: string)
    returns (found: bool, rest: seq<string>, fline: string, datafiles: seq<string>)
    requires Starts(fline1, "#-")
    ensures found <==> FindStart(rest1, "##").Some?
    ensures found ==> var q := FindStart(rest1, "##").value;
      rest == rest1[q + 1..] && fline == rest1[q] && datafiles == rest1[..q + 1]
  {
    rest, fline, datafiles := rest1, fline1, [];
    ghost var n := 0;
    while !Starts(fline, "##")
      invariant n <= |rest1| && rest == rest1[n..]
      invariant n > 0 ==> fline == rest1[n - 1]
      invariant n == 0 ==> Starts(fline, "#-")
      invariant datafiles == rest1[..n]
      invariant forall k :: 0 <= k < n - 1 ==> !Starts(rest1[k], "##")
      decreases |rest|
    {
      if |rest| == 0 {
        return false, rest, fline, datafiles;
      }
      fline := rest[0];
      rest := rest[1..];
      n := n + 1;
      datafiles := datafiles + [fline];
    }
    FindStartAt(rest1, "##", n - 1);
    found := true;
  }

  /** `load_sorted`, reading the lines one at a time as the source does. */
  method LoadSorted(lines: seq<string>) returns (r: Result<Sorted>)
    ensures r == LoadSortedSpec(lines)
  {
    var setups: seq<string> := [];
    var allLines: seq<seq<string>> := [];
    var allFiles: seq<seq<string>> := [];
    var rest := lines;
    var fline := "";
    if |rest| > 0 {
      fline := rest[0];
      rest := rest[1..];
    }
    if !Starts(fline, "####") {
      return Err(BadFormat);
    }
    assert Starts(fline, "##") by {
      SlicePrefix(fline, "####");
      SlicePrefix(fline, "##");
      assert fline[..2] == "####"[..2];
    }
    PrependEmpty(ParseFrom(rest, fline));
    while !Starts(fline, "##end")
      invariant Starts(fline, "##")
      invariant LoadSortedSpec(lines) == Prepend(Sorted(setups, allLines, allFiles), ParseFrom(rest, fline))
      decreases |rest|
    {
      ghost var rest0, fline0, acc0 := rest, fline, Sorted(setups, allLines, allFiles);
      assert LoadSortedSpec(lines) == Prepend(acc0, ParseFrom(rest0, fline0));
      // Setup lines
      var found, setupLines;
      found, rest, fline, setupLines, setups := ReadSetupLines(rest, fline, setups);
      if !found {
        return Err(NoRule);
      }
      ghost var q := FindStart(rest0, "#-").value;
      assert Slice(setupLines, 0, -1) == rest0[..q];
      allLines := allLines + [Slice(setupLines, 0, -1)];
      // Data files
      ghost var rest1 := rest;
      var datafiles;
      found, rest, fline, datafiles := ReadDataFiles(rest, fline);
      if !found {
        return Err(NoEnd);
      }
      ghost var q2 := FindStart(rest1, "##").value;
      assert Slice(datafiles, 0, -1) == rest1[..q2];
      allFiles := allFiles + [Slice(datafiles, 0, -1)];
      PrependPrepend(acc0, Sorted(Names(rest0[..q + 1]), [rest0[..q]], [rest1[..q2]]), ParseFrom(rest, fline));
    }
    r := Ok(Sorted(setups, allLines, allFiles));
    PrependEnd(Sorted(setups, allLines, allFiles), rest, fline);
  }

  lemma PrependEnd(acc: Sorted, rest: seq<string>, fline: string)
    requires Starts(fline, "##end")
    ensures Starts(fline, "##") && Prepend(acc, ParseFrom(rest, fline)) == Ok(acc)
  {
    SlicePrefix(fline, "##end");
    SlicePrefix(fline, "##");
    assert fline[..2] == "##end"[..2];
    assert acc.setups + [] == acc.setups;
    assert acc.setupLines + [] == acc.setupLines;
    assert acc.setupFiles + [] == acc.setupFiles;
  }

  // ---------------------------------------------------------------- the layout write_sorted produces

  /** `n` copies of `c`. */
  function Repeat(c: char, n: nat): (s: string)
    ensures |s| == n && forall i :: 0 <= i < n ==> s[i] == c
  {
    if n == 0 then "" else [c] + Repeat(c, n - 1)
  }

  const Width: nat := 58
  const Header: string := Repeat('#', Width) + "\n"
  const Rule: string := "#" + Repeat('-', Width - 1) + "\n"
  const End: string := "##end\n"

  /** One setup as `write_sorted` lays it out: its name, YAML lines and table lines. */
  datatype Block = Block(name: string, yaml: seq<string>, table: seq<string>)

  function SetupLine(name: string): string { "Setup " + name + "\n" }

  /** The lines following a header line: a block's setup line and YAML lines,
      its rule and its table, then the next header and the blocks after it,
      or `##end` after the last. */
  function Render(blocks: seq<Block>): seq<string>
  {
    if |blocks| == 0 then [End]
    else
      var b := blocks[0];
      ([SetupLine(b.name)] + b.yaml) + [Rule]
      + (b.table + [if |blocks| == 1 then End else Header] + (if |blocks| == 1 then [] else Render(blocks[1..])))
  }

  /** The whole file. */
  function SortedLines(blocks: seq<Block>): seq<string>
  {
    [Header] + Render(blocks)
  }

  /** A block `load_sorted` can read back: a name without surrounding
      whitespace, YAML lines that neither start `#-` nor mention `Setup`,
      table lines that do not start `##`. */
  predicate Readable(b: Block) {
    |b.name| > 0 && !IsSpace(b.name[0]) && !IsSpace(b.name[|b.name| - 1])
    && (forall k :: 0 <= k < |b.yaml| ==> !Starts(b.yaml[k], "#-") && !Contains(b.yaml[k], "Setup"))
    && (forall k :: 0 <= k < |b.table| ==> !Starts(b.table[k], "##"))
  }

  /** What reading the file back should give. */
  function Written(blocks: seq<Block>): Sorted
  {
    if |blocks| == 0 then Sorted([], [], [])
    else
      var rest := Written(blocks[1..]);
      Sorted([blocks[0].name] + rest.setups, [[SetupLine(blocks[0].name)] + blocks[0].yaml] + rest.setupLines,
             [blocks[0].table] + rest.setupFiles)
  }

  /** A string without `S` cannot contain `Setup`. */
  lemma {:induction false} NoSetup(s: string)
    requires forall k :: 0 <= k < |s| ==> s[k] != 'S'
    ensures !Contains(s, "Setup")
    decreases |s|
  {
    if |s| > 0 {
      assert !("Setup" <= s) by { assert s[0] != "Setup"[0]; }
      NoSetup(s[1..]);
    }
  }

  /** The `Setup X` line `write_sorted` writes yields the name `X`. */
  lemma SetupLineName(name: string)
    requires |name| > 0 && !IsSpace(name[0]) && !IsSpace(name[|name| - 1])
    ensures Contains(SetupLine(name), "Setup")
    ensures Strip(From(SetupLine(name), 6)) == name
  {
    var line := SetupLine(name);
    assert "Setup" <= line;
    assert From(line, 6) == name + "\n";
    assert LStrip(name + "\n") == name + "\n";
    assert (name + "\n")[..|name|] == name;
    assert RStrip(name + "\n") == RStrip(name);
    assert RStrip(name) == name;
  }

  /** The names of one rendered block's setup lines plus its rule. */
  lemma BlockNames(b: Block)
    requires Readable(b)
    ensures Names([SetupLine(b.name)] + b.yaml + [Rule]) == [b.name]
  {
    var a := [SetupLine(b.name)];
    assert Names(a) == [b.name] by {
      SetupLineName(b.name);
      assert a[..0] == [];
    }
    assert Names(a + b.yaml) == [b.name] by {
      NamesConcat(a, b.yaml);
      NamesNone(b.yaml);
    }
    assert Names([Rule]) == [] by {
      RuleNoSetup();
      assert [Rule][..0] == [];
    }
    NamesConcat(a + b.yaml, [Rule]);
  }

  lemma RuleNoSetup()
    ensures !Contains(Rule, "Setup")
  {
    forall k | 0 <= k < |Rule| ensures Rule[k] != 'S' {
      assert Rule[k] == if k == 0 then '#' else if k < Width then '-' else '\n';
    }
    NoSetup(Rule);
  }

  lemma {:induction false} NamesNone(block: seq<string>)
    requires forall k :: 0 <= k < |block| ==> !Contains(block[k], "Setup")
    ensures Names(block) == []
    decreases |block|
  {
    if |block| > 0 {
      NamesNone(block[..|block| - 1]);
    }
  }

  lemma StartsFacts()
    ensures Starts(Header, "####") && Starts(Header, "##") && !Starts(Header, "##end") && !Starts(Header, "#-")
    ensures Starts(End, "##") && Starts(End, "##end")
    ensures Starts(Rule, "#-") && !Starts(Rule, "##")
  {
    assert Header[..4] == "####" && Header[..2] == "##" && Header[1] == Header[2] == '#';
    StartsWith(Header, "####");
    StartsWith(Header, "##");
    StartsNot(Header, "##end", 2);
    StartsNot(Header, "#-", 1);
    assert End[..2] == "##" && End[..5] == "##end";
    StartsWith(End, "##");
    StartsWith(End, "##end");
    assert Rule[..2] == "#-";
    StartsWith(Rule, "#-");
    StartsNot(Rule, "##", 1);
  }

  /** The line after a rendered block: the next header, or `##end` after the last. */
  function Next(blocks: seq<Block>): string { if |blocks| <= 1 then End else Header }

  /** The lines after that one. */
  function After(blocks: seq<Block>): seq<string> { if |blocks| <= 1 then [] else Render(blocks[1..]) }

  lemma RenderShape(blocks: seq<Block>)
    requires |blocks| > 0
    ensures Render(blocks)
         == ([SetupLine(blocks[0].name)] + blocks[0].yaml) + [Rule] + (blocks[0].table + [Next(blocks)] + After(blocks))
  {
  }

  /** Reading one rendered block back, followed by the line `next` and the lines `after`. */
  lemma ParseOne(b: Block, next: string, after: seq<string>, fline: string)
    requires Readable(b) && Starts(next, "##")
    requires Starts(fline, "##") && !Starts(fline, "##end")
    ensures var head := [SetupLine(b.name)] + b.yaml;
      ParseFrom(head + [Rule] + (b.table + [next] + after), fline)
        == Prepend(Sorted([b.name], [head], [b.table]), ParseFrom(after, next))
  {
    StartsFacts();
    var head := [SetupLine(b.name)] + b.yaml;
    forall k | 0 <= k < |head| ensures !Starts(head[k], "#-") {
      if k > 0 {
        assert head[k] == b.yaml[k - 1];
      } else {
        StartsNot(SetupLine(b.name), "#-", 0);
      }
    }
    var rest := head + [Rule] + (b.table + [next] + after);
    CutAt(rest, "#-", head, Rule, b.table + [next] + after);
    CutAt(b.table + [next] + after, "##", b.table, next, after);
    BlockNames(b);
  }

  /** A line list cut at its first line starting `pre`. */
  lemma CutAt(rest: seq<string>, pre: string, front: seq<string>, mark: string, back: seq<string>)
    requires rest == front + [mark] + back && Starts(mark, pre)
    requires forall k :: 0 <= k < |front| ==> !Starts(front[k], pre)
    ensures FindStart(rest, pre) == Some(|front|) && rest[|front|] == mark
    ensures rest[..|front| + 1] == front + [mark] && rest[..|front|] == front && rest[|front| + 1..] == back
  {
    forall k | 0 <= k < |front| ensures !Starts(rest[k], pre) {
      assert rest[k] == front[k];
    }
    FindStartAt(rest, pre, |front|);
  }

  /** Reading a rendered block list from just after a header line. */
  lemma {:induction false} ParseRender(blocks: seq<Block>, fline: string)
    requires forall i :: 0 <= i < |blocks| ==> Readable(blocks[i])
    requires Starts(fline, "##") && (!Starts(fline, "##end") <==> |blocks| > 0)
    ensures ParseFrom(Render(blocks), fline) == Ok(Written(blocks))
    decreases |blocks|
  {
    if |blocks| > 0 {
      StartsFacts();
      RenderShape(blocks);
      ParseOne(blocks[0], Next(blocks), After(blocks), fline);
      assert ParseFrom(After(blocks), Next(blocks)) == Ok(Written(blocks[1..])) by {
        if |blocks| > 1 {
          ParseRender(blocks[1..], Header);
        }
      }
    }
  }

  /** `load_sorted` reads back the setups, their setup lines and their file
      tables from a file laid out as `write_sorted` writes it. */
  lemma LoadWritten(blocks: seq<Block>)
    requires |blocks| > 0 && forall i :: 0 <= i < |blocks| ==> Readable(blocks[i])
    ensures LoadSortedSpec(SortedLines(blocks)) == Ok(Written(blocks))
  {
    StartsFacts();
    assert SortedLines(blocks)[1..] == Render(blocks);
    ParseRender(blocks, Header);
  }
}
