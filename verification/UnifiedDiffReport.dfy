/** When the parse of a printed diff is the report of its patched files, and what the scanner then suppresses. */
module UnifiedDiffReports {
  import opened UnifiedDiffs
  import Text

  // ----- One file -----

  /**
    What is found of `f`: nothing if its header has no name; else its added lines under that name and the numbers
    the parser counts, which is its report if no added line comes after a blank one.
   */
  ghost predicate Describes(f: FileDiff, found: seq<AddedLine>) {
    && Fits(f.base, f.hunks)
    && (FileName(f.target) == "" ==> found == [])
    && (FileName(f.target) != "" ==> HasNumbers(found, FileName(f.target), CountedAt(f.hunks, 0)))
    && (FileName(f.target) != "" && NoLateHunks(f.hunks) ==> found == Report(FileName(f.target), f))
  }

  lemma StepFileHeader(s: Parser, target: string)
    ensures Step(s, "+++ " + target) == EnterFile(s, FileName(target))
  {
    hide FileName, HunkStart;
    var raw := "+++ " + target;
    assert raw[..4] == "+++ " && raw[4..] == target;
  }

  predicate NoHeaders(lines: seq<string>) {
    forall raw :: raw in lines ==> !Text.StartsWith(raw, "+++ ")
  }

  lemma LineIsNoHeader(l: Line)
    requires !Masked(l)
    ensures !Text.StartsWith(PrintLine(l), "+++ ")
  {
    if l.Added? {
      hide Text.StartsWith;
      SignedPrefix(l.text);
    } else if !l.Blank? {
      assert PrintLine(l)[0] != '+';
    }
  }

  lemma {:induction false} LinesAreNoHeaders(lines: seq<Line>)
    requires NoMasked(lines)
    ensures NoHeaders(PrintLines(lines))
    decreases |lines|
  {
    if lines != [] {
      hide Masked, PrintLine, Text.StartsWith;
      LinesAreNoHeaders(lines[..|lines| - 1]);
      LineIsNoHeader(lines[|lines| - 1]);
    }
  }

  lemma {:induction false} HunksAreNoHeaders(hunks: seq<Hunk>, oldAt: nat, at: nat)
    requires NoMaskedHunks(hunks)
    ensures NoHeaders(PrintHunks(hunks, oldAt, at))
    decreases |hunks|
  {
    hide NoMasked, PrintHeader, PrintLines, Text.StartsWith, OldSide, NewSide;
    if hunks != [] {
      hide PrintHunks;
      var h := hunks[0];
      LinesAreNoHeaders(h.lines);
      HunksAreNoHeaders(hunks[1..], oldAt + h.skip + |OldSide(h.lines)|, at + h.skip + |NewSide(h.lines)|);
      HeaderIsNoFileHeader(oldAt + h.skip, at + h.skip, h);
      FrontPrinted(hunks, oldAt, at);
    }
  }

  lemma HeaderIsNoFileHeader(oldAt: nat, at: nat, h: Hunk)
    ensures !Text.StartsWith(PrintHeader(oldAt, at, h), "+++ ") && !Text.StartsWith(PrintHeader(oldAt, at, h), "+")
  {
    hide PrintRange;
    assert PrintHeader(oldAt, at, h)[0] == '@';
  }

  /** The parts of a printed file, one after the other. */
  lemma RunFile(s: Parser, f: FileDiff)
    requires WellFormed(f)
    ensures Run(s, PrintFile(f)) == Run(EnterFile(s, FileName(f.target)), PrintHunks(f.hunks, 0, 0))
  {
    hide Step, FileName, PrintHunks, Inert;
    var header := ["+++ " + f.target];
    RunAppend(s, f.preamble + header, PrintHunks(f.hunks, 0, 0));
    RunAppend(s, f.preamble, header);
    RunInert(s, f.preamble);
    assert header[..0] == [];
    assert Run(s, header) == Step(Run(s, []), header[0]);
    StepFileHeader(s, f.target);
  }

  lemma FileEntered(s: Parser, f: FileDiff, name: string)
    requires WellFormed(f) && name != "" && name !in s.recent
    ensures Ready(EnterFile(s, name), f.hunks, name, Patched(f.base, f.hunks), f.hunks, 0)
    ensures Left(f.hunks, Patched(f.base, f.hunks), f.hunks, 0)
  {
    hide Shown, At, Patched, Placed;
    PatchedIsPlaced([], f.base, f.hunks);
    assert [] + Patched(f.base, f.hunks) == Patched(f.base, f.hunks);
    ShownLater(f.hunks, 0, -1);
  }

  /** The lines found since `s`. */
  function Since(s: Parser, s': Parser): seq<AddedLine>
    requires |s.added| <= |s'.added|
  {
    s'.added[|s.added|..]
  }

  lemma FileParsed(s: Parser, f: FileDiff)
    requires WellFormed(f) && NoMaskedHunks(f.hunks)
    requires FileName(f.target) !in s.recent
    ensures var s' := Run(s, PrintFile(f));
      && |s.added| <= |s'.added| && s'.added == s.added + Since(s, s')
      && Describes(f, Since(s, s'))
      && s'.recent.Keys == s.recent.Keys + (if FileName(f.target) == "" then {} else {FileName(f.target)})
  {
    hide Shown, At, Patched, Placed, Step, FileName, PrintHunks, PrintFile, Fits, WellFormed, Ready, Left, LinesAt, AddedAt,
         NoMaskedHunks, NoLateHunks, Apart, CountedAt, HasNumbers;
    var name, s1 := FileName(f.target), EnterFile(s, FileName(f.target));
    var s' := Run(s, PrintFile(f));
    RunFile(s, f);
    assert Fits(f.base, f.hunks) && Apart(f.hunks) by { WellFormedFits(f); }
    if name == "" {
      HunksAreNoHeaders(f.hunks, 0, 0);
      RunQuiet(s1, PrintHunks(f.hunks, 0, 0));
      assert s'.added == s.added && Since(s, s') == [];
    } else {
      HunksCounted(s1, f.hunks, name, 0, 0);
      assert s'.added == s.added + Since(s, s');
      if NoLateHunks(f.hunks) {
        FileEntered(s, f, name);
        HunksParsed(s1, f.hunks, name, Patched(f.base, f.hunks), f.hunks, 0, 0);
        assert Since(s, s') == Report(name, f);
      }
    }
  }

  lemma WellFormedFits(f: FileDiff)
    requires WellFormed(f)
    ensures Fits(f.base, f.hunks) && Apart(f.hunks)
  {
  }

  // ----- The whole diff -----

  predicate NoMaskedFiles(files: seq<FileDiff>) {
    forall i :: 0 <= i < |files| ==> NoMaskedHunks(files[i].hunks)
  }

  predicate NoLateFiles(files: seq<FileDiff>) {
    forall i :: 0 <= i < |files| ==> NoLateHunks(files[i].hunks)
  }

  /** One list after the other. */
  function Concat<T>(lists: seq<seq<T>>): seq<T>
    decreases |lists|
  {
    if lists == [] then [] else Concat(lists[..|lists| - 1]) + lists[|lists| - 1]
  }

  lemma ProperFront(files: seq<FileDiff>)
    requires ProperDiff(files) && files != []
    ensures ProperDiff(files[..|files| - 1]) && WellFormed(files[|files| - 1])
    ensures forall i :: 0 <= i < |files| ==> Fits(files[i].base, files[i].hunks)
    ensures NoMaskedFiles(files) <==> NoMaskedFiles(files[..|files| - 1]) && NoMaskedHunks(files[|files| - 1].hunks)
  {
    hide FileName, NoMaskedHunks, Fits, Inert, PlainHunk, Apart;
  }

  lemma ProperFits(files: seq<FileDiff>)
    requires ProperDiff(files)
    ensures forall i :: 0 <= i < |files| ==> Fits(files[i].base, files[i].hunks)
  {
    hide FileName, Fits, Inert, PlainHunk, Apart;
  }

  ghost predicate OneOf(name: string, files: seq<FileDiff>) {
    exists i :: 0 <= i < |files| && FileName(files[i].target) == name
  }

  /** Each of the lists describes its file. */
  ghost predicate DescribesAll(files: seq<FileDiff>, found: seq<seq<AddedLine>>) {
    |found| == |files| && forall i :: 0 <= i < |files| ==> Describes(files[i], found[i])
  }

  lemma DescribesMore(files: seq<FileDiff>, found: seq<seq<AddedLine>>, more: seq<AddedLine>)
    requires files != [] && DescribesAll(files[..|files| - 1], found) && Describes(files[|files| - 1], more)
    ensures DescribesAll(files, found + [more]) && Concat(found + [more]) == Concat(found) + more
  {
    hide Describes;
    assert (found + [more])[..|found|] == found;
    forall i | 0 <= i < |files| ensures Describes(files[i], (found + [more])[i]) {
      if i < |found| {
        assert files[..|files| - 1][i] == files[i];
      }
    }
  }

  /** Over a diff without masked lines the parser finds file after file. */
  lemma {:induction false} FilesParsed(files: seq<FileDiff>) returns (found: seq<seq<AddedLine>>)
    requires ProperDiff(files) && NoMaskedFiles(files)
    ensures Run(Init(), PrintFiles(files)).added == Concat(found) && DescribesAll(files, found)
    ensures forall name :: name in Run(Init(), PrintFiles(files)).recent ==> name != "" && OneOf(name, files)
    decreases |files|
  {
    hide *;
    if files == [] {
      found := [];
      NoFilesParsed();
    } else {
      var before, last := files[..|files| - 1], files[|files| - 1];
      ProperFront(files);
      found := FilesParsed(before);
      var s := Run(Init(), PrintFiles(before));
      NewFile(files, s);
      FileParsed(s, last);
      RunAppend(Init(), PrintFiles(before), PrintFile(last));
      LastFile(files);
      DescribesMore(files, found, Since(s, Run(s, PrintFile(last))));
      found := found + [Since(s, Run(s, PrintFile(last)))];
    }
  }

  lemma NoFilesParsed()
    ensures Run(Init(), PrintFiles([])).added == Concat([]) && DescribesAll([], [])
    ensures Run(Init(), PrintFiles([])).recent == map[]
  {
  }

  lemma LastFile(files: seq<FileDiff>)
    requires files != []
    ensures PrintFiles(files) == PrintFiles(files[..|files| - 1]) + PrintFile(files[|files| - 1])
    ensures FileName(files[|files| - 1].target) != "" ==> OneOf(FileName(files[|files| - 1].target), files)
  {
    hide PrintFile, FileName;
  }

  lemma NewFile(files: seq<FileDiff>, s: Parser)
    requires ProperDiff(files) && files != []
    requires forall name :: name in s.recent ==> name != "" && OneOf(name, files[..|files| - 1])
    ensures FileName(files[|files| - 1].target) !in s.recent
    ensures forall name :: OneOf(name, files[..|files| - 1]) ==> OneOf(name, files)
  {
    hide FileName, WellFormed;
  }

  // ----- The printed text and its lines -----

  predicate PlainAll(lines: seq<string>) {
    forall raw :: raw in lines ==> Plain(raw)
  }

  lemma {:induction false} LinesPlain(lines: seq<Line>)
    requires forall i :: 0 <= i < |lines| ==> PlainLine(lines[i])
    ensures PlainAll(PrintLines(lines))
    decreases |lines|
  {
    if lines != [] {
      LinesPlain(lines[..|lines| - 1]);
    }
  }

  lemma RangePlain(skipped: nat, count: nat)
    ensures Plain(PrintRange(skipped, count))
  {
    hide Decimals.Print;
  }

  lemma HeaderPlain(oldAt: nat, at: nat, h: Hunk)
    requires Plain(h.section)
    ensures Plain(PrintHeader(oldAt, at, h))
  {
    hide PrintRange, OldSide, NewSide;
    RangePlain(oldAt, |OldSide(h.lines)|);
    RangePlain(at, |NewSide(h.lines)|);
  }

  lemma {:induction false} HunksPlain(hunks: seq<Hunk>, oldAt: nat, at: nat)
    requires forall i :: 0 <= i < |hunks| ==> PlainHunk(hunks[i])
    ensures PlainAll(PrintHunks(hunks, oldAt, at))
    decreases |hunks|
  {
    hide Plain, PrintHeader, PlainLine, PrintLines, OldSide, NewSide;
    if hunks != [] {
      hide PrintHunks;
      var h := hunks[0];
      HunksPlain(hunks[1..], oldAt + h.skip + |OldSide(h.lines)|, at + h.skip + |NewSide(h.lines)|);
      LinesPlain(h.lines);
      HeaderPlain(oldAt + h.skip, at + h.skip, h);
      FrontPrinted(hunks, oldAt, at);
    }
  }

  lemma FilePlain(f: FileDiff)
    requires WellFormed(f)
    ensures PlainAll(PrintFile(f))
  {
    hide Fits, PrintHunks;
    HunksPlain(f.hunks, 0, 0);
  }

  lemma {:induction false} FilesPlain(files: seq<FileDiff>)
    requires forall i :: 0 <= i < |files| ==> WellFormed(files[i])
    ensures PlainAll(PrintFiles(files))
    decreases |files|
  {
    if files != [] {
      hide WellFormed, PrintFile, Plain;
      FilesPlain(files[..|files| - 1]);
      FilePlain(files[|files| - 1]);
    }
  }

  lemma ParseOfPrinted(files: seq<FileDiff>)
    requires ProperDiff(files)
    ensures Parse(PrintDiff(files)) == Run(Init(), PrintFiles(files)).added
  {
    hide WellFormed, FileName, Step, PrintFiles;
    var lines := PrintFiles(files);
    FilesPlain(files);
    assert forall i :: 0 <= i < |lines| ==> Plain((lines + [""])[i]);
    Text.SplitJoin(lines + [""], '\n');
    assert (lines + [""])[..|lines|] == lines;
    StepInert(Run(Init(), lines), "");
  }

  // ----- Counting the lines that look added -----

  predicate Plus(raw: string) {
    Text.StartsWith(raw, "+") && !Text.StartsWith(raw, "+++")
  }

  function Pluses(lines: seq<string>): nat
    decreases |lines|
  {
    if lines == [] then 0 else Pluses(lines[..|lines| - 1]) + (if Plus(lines[|lines| - 1]) then 1 else 0)
  }

  lemma {:induction false} PlusesAppend(a: seq<string>, b: seq<string>)
    ensures Pluses(a + b) == Pluses(a) + Pluses(b)
    decreases |b|
  {
    if b == [] {
      assert a + b == a;
    } else {
      hide Plus;
      assert (a + b)[..|a + b| - 1] == a + b[..|b| - 1];
      PlusesAppend(a, b[..|b| - 1]);
    }
  }

  lemma {:induction false} NoPluses(lines: seq<string>)
    requires forall i :: 0 <= i < |lines| ==> !Plus(lines[i])
    ensures Pluses(lines) == 0
    decreases |lines|
  {
    if lines != [] {
      hide Plus;
      NoPluses(lines[..|lines| - 1]);
    }
  }

  lemma OnlyPlusesAdd(s: Parser, raw: string)
    ensures |Step(s, raw).added| <= |s.added| + (if Plus(raw) then 1 else 0)
  {
    hide HunkStart, FileName;
  }

  lemma {:induction false} AddedBound(lines: seq<string>)
    ensures |Run(Init(), lines).added| <= Pluses(lines)
    decreases |lines|
  {
    if lines != [] {
      hide Step, Plus;
      AddedBound(lines[..|lines| - 1]);
      OnlyPlusesAdd(Run(Init(), lines[..|lines| - 1]), lines[|lines| - 1]);
    }
  }

  lemma LinePlus(l: Line)
    ensures Plus(PrintLine(l)) <==> l.Added? && !Masked(l)
  {
    if l.Added? {
      hide Text.StartsWith;
      SignedPrefix(l.text);
    } else if !l.Blank? {
      assert PrintLine(l)[0] != '+';
    }
  }

  lemma {:induction false} LinesPluses(lines: seq<Line>, at: nat)
    ensures Pluses(PrintLines(lines)) <= |AddedIn(lines, at)|
    ensures Pluses(PrintLines(lines)) == |AddedIn(lines, at)| <==> NoMasked(lines)
    decreases |lines|
  {
    if lines != [] {
      hide Plus, PrintLine, Masked;
      var before, last := lines[..|lines| - 1], lines[|lines| - 1];
      LinesPluses(before, at);
      LinePlus(last);
      assert PrintLines(lines)[..|before|] == PrintLines(before);
      assert NoMasked(lines) <==> NoMasked(before) && !Masked(last);
      assert Masked(last) ==> last.Added? by { MaskedIsAdded(last); }
    }
  }

  lemma MaskedIsAdded(l: Line)
    ensures Masked(l) ==> l.Added?
  {
  }

  lemma {:induction false} HunksPluses(hunks: seq<Hunk>, oldAt: nat, at: nat)
    ensures Pluses(PrintHunks(hunks, oldAt, at)) <= |AddedAt(hunks, at)|
    ensures Pluses(PrintHunks(hunks, oldAt, at)) == |AddedAt(hunks, at)| <==> NoMaskedHunks(hunks)
    decreases |hunks|
  {
    hide PrintHeader, PrintLines, AddedIn, NoMasked, Plus, OldSide, NewSide, Pluses;
    if hunks == [] {
      NoPluses([]);
    } else {
      hide PrintHunks, AddedAt;
      var h, start := hunks[0], at + hunks[0].skip;
      var header, rest := [PrintHeader(oldAt + h.skip, start, h)],
        PrintHunks(hunks[1..], oldAt + h.skip + |OldSide(h.lines)|, start + |NewSide(h.lines)|);
      HunksPluses(hunks[1..], oldAt + h.skip + |OldSide(h.lines)|, start + |NewSide(h.lines)|);
      LinesPluses(h.lines, start);
      FrontPrinted(hunks, oldAt, at);
      FrontAdded(hunks, at);
      PlusesAppend(header + PrintLines(h.lines), rest);
      PlusesAppend(header, PrintLines(h.lines));
      HeaderIsNoPlus(oldAt + h.skip, start, h);
      NoPluses(header);
      HunksMasked(hunks);
    }
  }

  lemma HunksMasked(hunks: seq<Hunk>)
    requires hunks != []
    ensures NoMaskedHunks(hunks) <==> NoMasked(hunks[0].lines) && NoMaskedHunks(hunks[1..])
  {
    hide NoMasked;
  }

  lemma HeaderIsNoPlus(oldAt: nat, at: nat, h: Hunk)
    ensures !Plus(PrintHeader(oldAt, at, h))
  {
    hide PrintHeader;
    HeaderIsNoFileHeader(oldAt, at, h);
  }

  lemma FilePluses(f: FileDiff)
    requires WellFormed(f)
    ensures Pluses(PrintFile(f)) <= |AddedAt(f.hunks, 0)|
    ensures Pluses(PrintFile(f)) == |AddedAt(f.hunks, 0)| <==> NoMaskedHunks(f.hunks)
  {
    hide NoMaskedHunks, PrintHunks, AddedAt, Fits, PlainHunk, Pluses;
    var header := ["+++ " + f.target];
    assert ("+++ " + f.target)[..3] == "+++";
    PlusesAppend(f.preamble + header, PrintHunks(f.hunks, 0, 0));
    PlusesAppend(f.preamble, header);
    NoPluses(header);
    NoPluses(f.preamble);
    HunksPluses(f.hunks, 0, 0);
  }

  lemma {:induction false} FilesPluses(files: seq<FileDiff>)
    requires ProperDiff(files) && forall i :: 0 <= i < |files| ==> Fits(files[i].base, files[i].hunks)
    ensures Pluses(PrintFiles(files)) <= |Expected(files)|
    ensures Pluses(PrintFiles(files)) == |Expected(files)| <==> NoMaskedFiles(files)
    decreases |files|
  {
    if files != [] {
      hide ProperDiff, NoMaskedFiles, NoMaskedHunks, PrintFile, Pluses, Fits, AddedAt;
      var before, last := files[..|files| - 1], files[|files| - 1];
      ProperFront(files);
      FilesPluses(before);
      FilePluses(last);
      PlusesAppend(PrintFiles(before), PrintFile(last));
    } else {
      assert NoMaskedFiles(files);
    }
  }

  // ----- When the report is right -----

  /** The header of `f` names it, unless nothing is added to it. */
  predicate Named(f: FileDiff) {
    AddedAt(f.hunks, 0) != [] ==> FileName(f.target) == f.name
  }

  predicate NamedFiles(files: seq<FileDiff>) {
    forall i :: 0 <= i < |files| ==> Named(files[i])
  }

  lemma NamedFront(files: seq<FileDiff>)
    requires files != []
    ensures NamedFiles(files) <==> NamedFiles(files[..|files| - 1]) && Named(files[|files| - 1])
  {
    hide Named;
  }

  lemma ReportEach(name: string, f: FileDiff, k: nat)
    requires Fits(f.base, f.hunks) && k < |AddedAt(f.hunks, 0)|
    ensures |Report(name, f)| == |AddedAt(f.hunks, 0)|
    ensures Report(name, f)[k].file == name && Report(name, f)[k].line == AddedAt(f.hunks, 0)[k] + 1
  {
    hide AddedAt, Patched, Before, At;
    LinesAtEach(name, Patched(f.base, f.hunks), f.hunks, AddedAt(f.hunks, 0), k);
  }

  /** What is found of a file is its report exactly if its header names it and no added line comes after a blank one. */
  lemma FoundIsReport(f: FileDiff, found: seq<AddedLine>)
    requires WellFormed(f) && Describes(f, found)
    ensures Fits(f.base, f.hunks) && |found| <= |Report(f.name, f)|
    ensures found == Report(f.name, f) <==> Named(f) && NoLateHunks(f.hunks)
  {
    hide FileName, AddedAt, Patched, CountedAt, NoLateHunks, Apart, Fits, LinesAt;
    var positions, numbers := AddedAt(f.hunks, 0), CountedAt(f.hunks, 0);
    CountedAtIsAdded(f.hunks, 0);
    if positions == [] {
      assert SameNumbers(numbers, positions);
    } else if found == Report(f.name, f) {
      ReportEach(f.name, f, 0);
      assert found[0].file == f.name;
      forall k | 0 <= k < |numbers| ensures numbers[k] == positions[k] + 1 {
        ReportEach(f.name, f, k);
      }
    }
  }

  lemma {:induction false} FoundIsExpected(files: seq<FileDiff>, found: seq<seq<AddedLine>>)
    requires ProperDiff(files) && DescribesAll(files, found)
    ensures (forall i :: 0 <= i < |files| ==> Fits(files[i].base, files[i].hunks)) && |Concat(found)| <= |Expected(files)|
    ensures Concat(found) == Expected(files) <==> NamedFiles(files) && NoLateFiles(files)
    decreases |files|
  {
    hide ProperDiff, Describes, Report, Named, NoLateHunks, Fits, FileName;
    ProperFits(files);
    if files == [] {
      assert NamedFiles(files) && NoLateFiles(files);
    } else {
      hide NamedFiles, NoLateFiles;
      var n := |files| - 1;
      ProperFront(files);
      FoundIsExpected(files[..n], found[..n]);
      FoundIsReport(files[n], found[n]);
      Text.SameParts(Concat(found[..n]), found[n], Expected(files[..n]), Report(files[n].name, files[n]));
      NamedFront(files);
      LateFront(files);
    }
  }

  lemma LateFront(files: seq<FileDiff>)
    requires files != []
    ensures NoLateFiles(files) <==> NoLateFiles(files[..|files| - 1]) && NoLateHunks(files[|files| - 1].hunks)
  {
    hide NoLateHunks;
  }

  /**
    The parser reports exactly the added lines, each with its number and text in the patched file and with the
    line before it if the diff shows that one, if and only if no added line begins with "++", every file that
    gains a line is named by its header, and in no hunk an added line comes after a blank line that is printed
    as an empty one.
   */
  lemma ParseIsFaithful(files: seq<FileDiff>)
    requires ProperDiff(files)
    ensures (forall i :: 0 <= i < |files| ==> Fits(files[i].base, files[i].hunks))
      && (Parse(PrintDiff(files)) == Expected(files)
          <==> NoMaskedFiles(files) && NamedFiles(files) && NoLateFiles(files))
  {
    hide ProperDiff, NoMaskedFiles, NamedFiles, NoLateFiles, DescribesAll, Fits, Run, Parse, PrintDiff;
    ProperFits(files);
    ParseOfPrinted(files);
    AddedBound(PrintFiles(files));
    FilesPluses(files);
    if NoMaskedFiles(files) {
      var found := FilesParsed(files);
      FoundIsExpected(files, found);
    }
  }

  /** Which headers name a file. */
  lemma NamedByHeader(target: string, name: string)
    requires name != ""
    ensures FileName(target) == name <==> target == "b/" + name && forall i :: 0 <= i < |name| ==> !IsLineEnd(name[i])
  {
    if target == "b/" + name {
      assert target[..2] == "b/" && target[2..] == name;
      assert forall i :: 0 <= i < |name| ==> target[i + 2] == name[i];
    }
    if FileName(target) == name {
      assert target == target[..2] + target[2..];
    }
  }

  // ----- One diff for each way to fail -----

  /** A new line in the file `name`, after the lines `lead` of which the file consists. */
  function OneChange(name: string, target: string, lead: seq<Line>, text: string): FileDiff {
    FileDiff(name, OldSide(lead), [], target, [Hunk(0, lead + [Added(text)], "")])
  }

  lemma OneChangeFits(name: string, target: string, lead: seq<Line>, text: string)
    ensures var f := OneChange(name, target, lead, text); Fits(f.base, f.hunks)
  {
    var f := OneChange(name, target, lead, text);
    assert (lead + [Added(text)])[..|lead|] == lead;
    assert OldSide(f.hunks[0].lines) == OldSide(lead);
    assert f.base[0..|f.base|] == f.base && f.hunks[1..] == [];
  }

  lemma OneChangeIsProper(name: string, target: string, lead: seq<Line>, text: string)
    requires name != "" && Plain(target) && Plain(text) && forall i :: 0 <= i < |lead| ==> PlainLine(lead[i])
    ensures ProperDiff([OneChange(name, target, lead, text)])
  {
    hide Fits, FileName, OldSide, Plain;
    var f := OneChange(name, target, lead, text);
    OneChangeFits(name, target, lead, text);
    assert Plain("") by { NothingPlain(); }
    assert PlainHunk(f.hunks[0]);
    assert WellFormed(f);
  }

  lemma NothingPlain()
    ensures Plain("")
  {
  }

  lemma OneChangeAdds(name: string, target: string, lead: seq<Line>, text: string)
    ensures AddedAt(OneChange(name, target, lead, text).hunks, 0) != []
  {
    var lines := lead + [Added(text)];
    assert lines[..|lead|] == lead;
    assert AddedAt([], |NewSide(lines)|) == [];
    assert [Hunk(0, lines, "")][1..] == [];
  }

  /** An added line whose text begins with "++", like `++n;`, is lost. */
  lemma MaskedLineIsLost(name: string, target: string, lead: seq<Line>, text: string)
    requires name != "" && Plain(target) && Plain("++" + text) && forall i :: 0 <= i < |lead| ==> PlainLine(lead[i])
    ensures var files := [OneChange(name, target, lead, "++" + text)];
      && ProperDiff(files) && (forall i :: 0 <= i < |files| ==> Fits(files[i].base, files[i].hunks))
      && Parse(PrintDiff(files)) != Expected(files)
  {
    hide Parse, PrintDiff, Expected, ProperDiff, Plain, OldSide, FileName, Fits, AddedAt;
    var f := OneChange(name, target, lead, "++" + text);
    OneChangeIsProper(name, target, lead, "++" + text);
    ParseIsFaithful([f]);
    assert ("++" + text)[..2] == "++";
    assert Masked(f.hunks[0].lines[|lead|]);
    assert !NoMasked(f.hunks[0].lines);
    assert !NoMaskedHunks([f][0].hunks);
  }

  /**
    A path with a blank gets a tab at the end of its header, and its added lines are reported under a name with
    that tab.
   */
  lemma TabbedHeaderMisnames(name: string, lead: seq<Line>, text: string)
    requires name != "" && (forall i :: 0 <= i < |name| ==> !IsLineEnd(name[i])) && Plain(text) && !Text.StartsWith(text, "++")
    requires NoMasked(lead) && NoBlank(lead) && forall i :: 0 <= i < |lead| ==> PlainLine(lead[i])
    ensures var f := OneChange(name, "b/" + name + "\t", lead, text);
      && ProperDiff([f]) && Fits(f.base, f.hunks) && Parse(PrintDiff([f])) == Report(name + "\t", f) != Report(name, f)
  {
    hide PrintDiff, ProperDiff, OldSide, NewSide, FileName, Fits, AddedAt, Report, Run, Text.StartsWith;
    var target := "b/" + name + "\t";
    var f := OneChange(name, target, lead, text);
    assert forall i :: 0 <= i < |name| ==> name[i] != '\n';
    assert Plain(target);
    OneChangeIsProper(name, target, lead, text);
    OneChangeFits(name, target, lead, text);
    OneChangeAdds(name, target, lead, text);
    assert target == "b/" + (name + "\t");
    NamedByHeader(target, name + "\t");
    assert NoMasked(f.hunks[0].lines) && NoMaskedFiles([f]);
    assert NoLate(f.hunks[0].lines) && NoLateHunks(f.hunks);
    var found := FilesParsed([f]);
    ParseOfPrinted([f]);
    assert Describes([f][0], found[0]);
    assert found[..0] == [] && Concat(found) == found[0];
    assert Report(name, f)[0].file == name && Report(name + "\t", f)[0].file == name + "\t" by {
      ReportEach(name, f, 0);
      ReportEach(name + "\t", f, 0);
    }
  }

  /** An added line after a blank one that is printed as an empty line is reported under too small a number. */
  lemma LateLineIsMisnumbered(name: string, lead: seq<Line>, text: string)
    requires name != "" && (forall i :: 0 <= i < |name| ==> !IsLineEnd(name[i])) && Plain(text) && !Text.StartsWith(text, "++")
    requires NoMasked(lead) && !NoBlank(lead) && forall i :: 0 <= i < |lead| ==> PlainLine(lead[i])
    ensures var files := [OneChange(name, "b/" + name, lead, text)];
      && ProperDiff(files) && (forall i :: 0 <= i < |files| ==> Fits(files[i].base, files[i].hunks))
      && Parse(PrintDiff(files)) != Expected(files)
  {
    hide Parse, PrintDiff, Expected, ProperDiff, OldSide, FileName, Fits, AddedAt, Text.StartsWith;
    var f := OneChange(name, "b/" + name, lead, text);
    assert forall i :: 0 <= i < |name| ==> name[i] != '\n';
    assert Plain("b/" + name);
    OneChangeIsProper(name, "b/" + name, lead, text);
    ParseIsFaithful([f]);
    var i :| 0 <= i < |lead| && lead[i].Blank?;
    assert f.hunks[0].lines[i].Blank? && f.hunks[0].lines[|lead|].Added?;
    assert !NoLate(f.hunks[0].lines);
    assert !NoLateHunks([f][0].hunks);
  }

  // ----- What a report says -----

  /** The texts of the added lines, in order. */
  function AddedTexts(lines: seq<Line>): seq<string>
    decreases |lines|
  {
    if lines == [] then []
    else
      var last := lines[|lines| - 1];
      AddedTexts(lines[..|lines| - 1]) + (if last.Added? then [last.text] else [])
  }

  function AllAddedTexts(hunks: seq<Hunk>): seq<string>
    decreases |hunks|
  {
    if hunks == [] then [] else AddedTexts(hunks[0].lines) + AllAddedTexts(hunks[1..])
  }

  /** The lines of `patched` at some positions. */
  function Pick(patched: seq<string>, positions: seq<nat>): (r: seq<string>)
    ensures |r| == |positions|
    ensures forall k :: 0 <= k < |r| ==> r[k] == At(patched, positions[k])
    decreases |positions|
  {
    if positions == [] then []
    else Pick(patched, positions[..|positions| - 1]) + [At(patched, positions[|positions| - 1])]
  }

  ghost predicate Rising(positions: seq<nat>, from: int, to: int) {
    && (forall i :: 0 <= i < |positions| ==> from <= positions[i] < to)
    && (forall i, j :: 0 <= i < j < |positions| ==> positions[i] < positions[j])
  }

  lemma {:induction false} AddedInRises(lines: seq<Line>, at: nat)
    ensures Rising(AddedIn(lines, at), at, at + |NewSide(lines)|)
    decreases |lines|
  {
    if lines != [] {
      AddedInRises(lines[..|lines| - 1], at);
    }
  }

  lemma {:induction false} AddedAtRises(base: seq<string>, hunks: seq<Hunk>, at: nat)
    requires Fits(base, hunks)
    ensures Rising(AddedAt(hunks, at), at, at + |Patched(base, hunks)|)
    decreases |hunks|
  {
    hide AddedIn, NewSide, OldSide, Rising;
    if hunks == [] {
      NothingRises(at, at + |base|);
    } else {
      var h := hunks[0];
      var rest, next := base[h.skip + |OldSide(h.lines)|..], at + h.skip + |NewSide(h.lines)|;
      AddedInRises(h.lines, at + h.skip);
      AddedAtRises(rest, hunks[1..], next);
      RisesOn(AddedIn(h.lines, at + h.skip), AddedAt(hunks[1..], next), at, at + h.skip, next, next + |Patched(rest, hunks[1..])|);
    }
  }

  lemma NothingRises(from: int, to: int)
    ensures Rising([], from, to)
  {
  }

  lemma RisesOn(a: seq<nat>, b: seq<nat>, at: int, from: int, middle: int, to: int)
    requires at <= from <= middle <= to && Rising(a, from, middle) && Rising(b, middle, to)
    ensures Rising(a + b, at, to)
  {
  }

  lemma {:induction false} PickIn(lines: seq<Line>, patched: seq<string>, at: nat)
    requires forall q :: at <= q < at + |NewSide(lines)| ==> At(patched, q) == NewSide(lines)[q - at]
    ensures Pick(patched, AddedIn(lines, at)) == AddedTexts(lines)
    decreases |lines|
  {
    if lines != [] {
      hide At;
      var before, side := lines[..|lines| - 1], NewSide(lines);
      SideStep(lines);
      forall q | at <= q < at + |NewSide(before)| ensures At(patched, q) == NewSide(before)[q - at] {
        assert side[q - at] == NewSide(before)[q - at];
      }
      PickIn(before, patched, at);
      if lines[|lines| - 1].Added? {
        assert AddedIn(lines, at)[..|AddedIn(before, at)|] == AddedIn(before, at);
        assert At(patched, at + |NewSide(before)|) == side[at + |NewSide(before)| - at];
      }
    }
  }

  lemma {:induction false} PickAppend(patched: seq<string>, a: seq<nat>, b: seq<nat>)
    ensures Pick(patched, a + b) == Pick(patched, a) + Pick(patched, b)
    decreases |b|
  {
    if b == [] {
      assert a + b == a;
    } else {
      assert (a + b)[..|a + b| - 1] == a + b[..|b| - 1];
      PickAppend(patched, a, b[..|b| - 1]);
    }
  }

  lemma NothingToPick(patched: seq<string>, at: nat)
    ensures Pick(patched, AddedAt([], at)) == []
  {
  }

  lemma {:induction false} PickAt(hunks: seq<Hunk>, patched: seq<string>, at: nat)
    requires Placed(patched, hunks, at)
    ensures Pick(patched, AddedAt(hunks, at)) == AllAddedTexts(hunks)
    decreases |hunks|
  {
    hide At, NewSide, AddedIn, AddedTexts, Pick;
    if hunks == [] {
      NothingToPick(patched, at);
    } else {
      hide AddedAt;
      var start := at + hunks[0].skip;
      FrontAdded(hunks, at);
      PickIn(hunks[0].lines, patched, start);
      PickAt(hunks[1..], patched, start + |NewSide(hunks[0].lines)|);
      PickAppend(patched, AddedIn(hunks[0].lines, start), AddedAt(hunks[1..], start + |NewSide(hunks[0].lines)|));
    }
  }

  lemma {:induction false} LinesAtEach(name: string, patched: seq<string>, all: seq<Hunk>, positions: seq<nat>, k: nat)
    requires k < |positions|
    ensures LinesAt(name, patched, all, positions)[k] == LineAt(name, patched, all, positions[k])
    decreases |positions|
  {
    if k < |positions| - 1 {
      LinesAtEach(name, patched, all, positions[..|positions| - 1], k);
    }
  }

  /**
    The report of a patch has the added lines, in order and with rising numbers, and the line of the patched
    file under each number is the added line.
   */
  lemma ReportedLines(name: string, f: FileDiff, k: nat)
    requires Fits(f.base, f.hunks) && k < |Report(name, f)|
    ensures |Report(name, f)| == |AllAddedTexts(f.hunks)|
    ensures var r, patched := Report(name, f), Patched(f.base, f.hunks);
      && 1 <= r[k].line <= |patched|
      && r[k].content == patched[r[k].line - 1] == AllAddedTexts(f.hunks)[k]
      && (k > 0 ==> r[k - 1].line < r[k].line)
  {
    hide At, Placed, Patched, Fits, AddedAt, LinesAt, AllAddedTexts, Shown;
    var patched, positions := Patched(f.base, f.hunks), AddedAt(f.hunks, 0);
    PatchedIsPlaced([], f.base, f.hunks);
    assert [] + patched == patched;
    PickAt(f.hunks, patched, 0);
    AddedAtRises(f.base, f.hunks, 0);
    LinesAtEach(name, patched, f.hunks, positions, k);
    if k > 0 {
      LinesAtEach(name, patched, f.hunks, positions, k - 1);
    }
    InsideAt(patched, positions[k]);
  }

  lemma InsideAt(patched: seq<string>, q: nat)
    ensures q < |patched| ==> At(patched, q) == patched[q]
  {
  }

  // ----- Suppression -----

  predicate Contains(s: string, part: string) {
    exists i :: 0 <= i <= |s| && Text.StartsWith(s[i..], part)
  }

  predicate IsSuppressed(line: AddedLine) {
    Contains(line.content, "generic-examples:ignore-line")
    || Contains(line.previousContent, "generic-examples:ignore-next-line")
  }

  /** No line of the hunk is added before its first unchanged line. */
  predicate LeadIn(lines: seq<Line>) {
    forall i :: 0 <= i < |lines| && lines[i].Added? ==> exists j :: 0 <= j < i && lines[j].Context?
  }

  /** Every hunk leads in with an unchanged line; the first need not if it is at the top of the file. */
  predicate HasLeadIns(hunks: seq<Hunk>, at: nat) {
    forall i :: 0 <= i < |hunks| ==> LeadIn(hunks[i].lines) || (i == 0 && at + hunks[i].skip == 0)
  }

  lemma {:induction false} LeadInSide(lines: seq<Line>, j: nat)
    requires j < |lines| && lines[j].Context?
    ensures NewSide(lines) != []
    decreases |lines|
  {
    if j < |lines| - 1 {
      LeadInSide(lines[..|lines| - 1], j);
    }
  }

  lemma {:induction false} LeadInShows(lines: seq<Line>, at: nat)
    requires LeadIn(lines)
    ensures forall k :: 0 <= k < |AddedIn(lines, at)| ==> AddedIn(lines, at)[k] > at
    decreases |lines|
  {
    if lines != [] {
      var before, last := lines[..|lines| - 1], lines[|lines| - 1];
      LeadInShows(before, at);
      if last.Added? {
        var j :| 0 <= j < |lines| - 1 && lines[j].Context?;
        LeadInSide(before, j);
      }
    }
  }

  lemma {:induction false} LineBeforeIsShown(hunks: seq<Hunk>, at: nat, k: nat)
    requires HasLeadIns(hunks, at) && k < |AddedAt(hunks, at)|
    ensures AddedAt(hunks, at)[k] == 0 || Shown(hunks, at, AddedAt(hunks, at)[k] - 1)
    decreases |hunks|
  {
    hide LeadIn, AddedIn, NewSide;
    var lines, start := hunks[0].lines, at + hunks[0].skip;
    AddedInRises(lines, start);
    if k < |AddedIn(lines, start)| {
      if LeadIn(lines) {
        LeadInShows(lines, start);
      }
    } else {
      NextLeadIns(hunks, at);
      LineBeforeIsShown(hunks[1..], start + |NewSide(lines)|, k - |AddedIn(lines, start)|);
    }
  }

  lemma NextLeadIns(hunks: seq<Hunk>, at: nat)
    requires hunks != [] && HasLeadIns(hunks, at)
    ensures HasLeadIns(hunks[1..], at + hunks[0].skip + |NewSide(hunks[0].lines)|)
  {
    hide LeadIn, NewSide;
  }

  /**
    With a line of context before each change, an added line is suppressed exactly if it carries the same-line
    marker or the line above it in the patched file carries the next-line marker.
   */
  lemma MarkersAreSeen(name: string, f: FileDiff, k: nat)
    requires Fits(f.base, f.hunks) && HasLeadIns(f.hunks, 0) && k < |Report(name, f)|
    ensures var line, patched := Report(name, f)[k], Patched(f.base, f.hunks);
      && 1 <= line.line <= |patched|
      && (IsSuppressed(line) <==>
          || Contains(patched[line.line - 1], "generic-examples:ignore-line")
          || (line.line >= 2 && Contains(patched[line.line - 2], "generic-examples:ignore-next-line")))
  {
    hide Placed, Patched, Fits, AddedAt, LinesAt, AllAddedTexts, Shown, HasLeadIns, Contains;
    var patched, positions := Patched(f.base, f.hunks), AddedAt(f.hunks, 0);
    ReportedLines(name, f, k);
    LinesAtEach(name, patched, f.hunks, positions, k);
    LineBeforeIsShown(f.hunks, 0, k);
    assert !Contains("", "generic-examples:ignore-next-line") by { NothingInEmpty(); }
    ShownLater(f.hunks, 0, -1);
  }

  lemma NothingInEmpty()
    ensures !Contains("", "generic-examples:ignore-next-line")
  {
  }
}
