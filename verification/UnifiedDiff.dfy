/**
  The scanner's parser of unified diffs, and when it keeps its promise: to report the added lines of every file
  as they are in the patched file.
 */
module UnifiedDiffs {
  import opened Options
  import Text
  import Decimals

  // ----- The parser -----

  datatype AddedLine = AddedLine(file: string, line: int, content: string, previousContent: string)

  /** `recent` holds the lines seen so far of each file, by line number. */
  datatype Parser = Parser(file: string, newLine: int, recent: map<string, map<int, string>>, added: seq<AddedLine>)

  function Init(): Parser {
    Parser("", 0, map[], [])
  }

  /** A character that the dot of a regular expression does not match. */
  predicate IsLineEnd(c: char) {
    c in "\n\r\U{2028}\U{2029}"
  }

  /** The path in a header line whose text after `+++ ` is `target`; empty if there is none. */
  function FileName(target: string): string {
    if |target| > 2 && Text.StartsWith(target, "b/") && !exists i :: 2 <= i < |target| && IsLineEnd(target[i])
    then target[2..] else ""
  }

  /** Skip an optional comma and count. */
  function SkipCount(s: string): string {
    if s != [] && s[0] == ',' && Decimals.Leading(s[1..]) != [] then s[1 + |Decimals.Leading(s[1..])|..] else s
  }

  /** The line number of a range that begins with `prefix`, and the text after the range. */
  function Range(s: string, prefix: string): Option<(nat, string)> {
    if !Text.StartsWith(s, prefix) then None
    else
      var digits := Decimals.Leading(s[|prefix|..]);
      if digits == [] then None else Some((Decimals.Value(digits), SkipCount(s[|prefix| + |digits|..])))
  }

  /** The number of the first new line in a hunk header. */
  function HunkStart(raw: string): Option<nat> {
    match Range(raw, "@@ -")
    case None => None
    case Some((_, rest)) => match Range(rest, " +")
      case None => None
      case Some((start, tail)) => if Text.StartsWith(tail, " @@") then Some(start) else None
  }

  function Recent(s: Parser, file: string): map<int, string> {
    if file in s.recent then s.recent[file] else map[]
  }

  function Note(s: Parser, content: string): Parser {
    s.(recent := s.recent[s.file := Recent(s, s.file)[s.newLine := content]], newLine := s.newLine + 1)
  }

  /** The line noted under number `n`. */
  function Noted(recent: map<int, string>, n: int): string {
    if n in recent then recent[n] else ""
  }

  function AddLine(s: Parser, content: string): Parser {
    Note(s, content).(added := s.added + [AddedLine(s.file, s.newLine, content, Noted(Recent(s, s.file), s.newLine - 1))])
  }

  function EnterFile(s: Parser, file: string): Parser {
    s.(file := file,
       recent := if file != "" && file !in s.recent then s.recent[file := map[]] else s.recent)
  }

  function Step(s: Parser, raw: string): Parser {
    if Text.StartsWith(raw, "+++ ") then EnterFile(s, FileName(raw[4..]))
    else if Text.StartsWith(raw, "@@") then
      if HunkStart(raw).Some? then s.(newLine := HunkStart(raw).value) else s
    else if s.file == "" then s
    else if Text.StartsWith(raw, "+") && !Text.StartsWith(raw, "+++") then AddLine(s, raw[1..])
    else if Text.StartsWith(raw, " ") then Note(s, raw[1..])
    else s
  }

  function Run(s: Parser, lines: seq<string>): Parser
    decreases |lines|
  {
    if lines == [] then s else Step(Run(s, lines[..|lines| - 1]), lines[|lines| - 1])
  }

  function Parse(diff: string): seq<AddedLine> {
    Run(Init(), Text.Split(diff, '\n')).added
  }

  method ParseUnifiedDiff(diff: string) returns (added: seq<AddedLine>)
    ensures added == Parse(diff)
  {
    hide HunkStart, FileName;
    added := [];
    var currentFile := "";
    var currentNewLine := 0;
    var recentContentByFile: map<string, map<int, string>> := map[];
    var lines := Text.Split(diff, '\n');
    for n := 0 to |lines|
      invariant Parser(currentFile, currentNewLine, recentContentByFile, added) == Run(Init(), lines[..n])
      invariant currentFile != "" ==> currentFile in recentContentByFile
    {
      assert lines[..n + 1][..n] == lines[..n];
      var raw := lines[n];
      if Text.StartsWith(raw, "+++ ") {
        currentFile := FileName(raw[4..]);
        if currentFile != "" && currentFile !in recentContentByFile {
          recentContentByFile := recentContentByFile[currentFile := map[]];
        }
        continue;
      }
      if Text.StartsWith(raw, "@@") {
        var start := HunkStart(raw);
        if start.Some? {
          currentNewLine := start.value;
        }
        continue;
      }
      if currentFile == "" {
        continue;
      }
      if Text.StartsWith(raw, "+") && !Text.StartsWith(raw, "+++") {
        var content := raw[1..];
        var recent := recentContentByFile[currentFile];
        var previousContent := if currentNewLine - 1 in recent then recent[currentNewLine - 1] else "";
        recentContentByFile := recentContentByFile[currentFile := recent[currentNewLine := content]];
        added := added + [AddedLine(currentFile, currentNewLine, content, previousContent)];
        currentNewLine := currentNewLine + 1;
      } else if Text.StartsWith(raw, "-") && !Text.StartsWith(raw, "---") {
        // a removed line does not advance the new file
      } else if Text.StartsWith(raw, " ") {
        var recent := recentContentByFile[currentFile];
        recentContentByFile := recentContentByFile[currentFile := recent[currentNewLine := raw[1..]]];
        currentNewLine := currentNewLine + 1;
      }
    }
    assert lines[..|lines|] == lines;
  }

  // ----- Patches -----

  /**
    A line of a hunk. `Blank` is an empty unchanged line of which the diff shows not even the leading space, as
    it may; `NoNewline` is the remark that the last line has no line end.
   */
  datatype Line = Context(text: string) | Removed(text: string) | Added(text: string) | Blank | NoNewline

  /** What a line is in the old file, and in the new one. */
  function OldText(l: Line): seq<string> {
    if l.Context? || l.Removed? then [l.text] else if l.Blank? then [""] else []
  }

  function NewText(l: Line): seq<string> {
    if l.Context? || l.Added? then [l.text] else if l.Blank? then [""] else []
  }

  /** A hunk after `skip` lines that the diff leaves out; `section` follows the ranges in its header. */
  datatype Hunk = Hunk(skip: nat, lines: seq<Line>, section: string)

  /** The change of the file `name`: the old lines, the lines before its `+++` header, the text of that header, and the hunks. */
  datatype FileDiff = FileDiff(name: string, base: seq<string>, preamble: seq<string>, target: string, hunks: seq<Hunk>)

  function OldSide(lines: seq<Line>): seq<string>
    decreases |lines|
  {
    if lines == [] then []
    else OldSide(lines[..|lines| - 1]) + OldText(lines[|lines| - 1])
  }

  function NewSide(lines: seq<Line>): seq<string>
    decreases |lines|
  {
    if lines == [] then []
    else NewSide(lines[..|lines| - 1]) + NewText(lines[|lines| - 1])
  }

  /** The hunks can be applied to `base`. */
  predicate Fits(base: seq<string>, hunks: seq<Hunk>)
    decreases |hunks|
  {
    hunks == []
    || (var h := hunks[0];
        && h.skip + |OldSide(h.lines)| <= |base|
        && base[h.skip..h.skip + |OldSide(h.lines)|] == OldSide(h.lines)
        && Fits(base[h.skip + |OldSide(h.lines)|..], hunks[1..]))
  }

  /** The file after the hunks are applied. */
  function Patched(base: seq<string>, hunks: seq<Hunk>): seq<string>
    requires Fits(base, hunks)
    decreases |hunks|
  {
    if hunks == [] then base
    else
      var h := hunks[0];
      base[..h.skip] + NewSide(h.lines) + Patched(base[h.skip + |OldSide(h.lines)|..], hunks[1..])
  }

  // ----- Printing a diff -----

  /** The count of a range; a count of one goes without saying. */
  function PrintCount(count: nat): string {
    if count == 1 then "" else "," + Decimals.Print(count)
  }

  /** A range of `count` lines after the first `skipped`; an empty one is named by the line before it. */
  function PrintRange(skipped: nat, count: nat): string {
    Decimals.Print(if count == 0 then skipped else skipped + 1) + PrintCount(count)
  }

  function PrintHeader(oldAt: nat, newAt: nat, h: Hunk): string {
    "@@ -" + (PrintRange(oldAt, |OldSide(h.lines)|) + (" +" + (PrintRange(newAt, |NewSide(h.lines)|) + (" @@" + h.section))))
  }

  function PrintLine(l: Line): string {
    match l
    case Context(text) => " " + text
    case Removed(text) => "-" + text
    case Added(text) => "+" + text
    case Blank => ""
    case NoNewline => "\\ No newline at end of file"
  }

  function PrintLines(lines: seq<Line>): (r: seq<string>)
    ensures |r| == |lines|
    decreases |lines|
  {
    if lines == [] then [] else PrintLines(lines[..|lines| - 1]) + [PrintLine(lines[|lines| - 1])]
  }

  function PrintHunks(hunks: seq<Hunk>, oldAt: nat, newAt: nat): seq<string>
    decreases |hunks|
  {
    if hunks == [] then []
    else
      var h := hunks[0];
      [PrintHeader(oldAt + h.skip, newAt + h.skip, h)] + PrintLines(h.lines)
      + PrintHunks(hunks[1..], oldAt + h.skip + |OldSide(h.lines)|, newAt + h.skip + |NewSide(h.lines)|)
  }

  function PrintFile(f: FileDiff): seq<string> {
    f.preamble + ["+++ " + f.target] + PrintHunks(f.hunks, 0, 0)
  }

  function PrintFiles(files: seq<FileDiff>): seq<string>
    decreases |files|
  {
    if files == [] then [] else PrintFiles(files[..|files| - 1]) + PrintFile(files[|files| - 1])
  }

  function PrintDiff(files: seq<FileDiff>): string {
    Text.Join(PrintFiles(files) + [""], "\n")
  }

  // ----- What should be reported -----

  /** Where the added lines of a hunk go in the new file, when its first new line goes to `at`. */
  function AddedIn(lines: seq<Line>, at: nat): seq<nat>
    decreases |lines|
  {
    if lines == [] then []
    else
      var before := lines[..|lines| - 1];
      AddedIn(before, at) + (if lines[|lines| - 1].Added? then [at + |NewSide(before)|] else [])
  }

  function AddedAt(hunks: seq<Hunk>, at: nat): seq<nat>
    decreases |hunks|
  {
    if hunks == [] then []
    else
      var start := at + hunks[0].skip;
      AddedIn(hunks[0].lines, start) + AddedAt(hunks[1..], start + |NewSide(hunks[0].lines)|)
  }

  /** Position `q` of the new file is part of a hunk. */
  predicate Shown(hunks: seq<Hunk>, at: nat, q: int)
    decreases |hunks|
  {
    hunks != []
    && var start := at + hunks[0].skip;
      start <= q < start + |NewSide(hunks[0].lines)| || Shown(hunks[1..], start + |NewSide(hunks[0].lines)|, q)
  }

  function At(patched: seq<string>, q: int): string {
    if 0 <= q < |patched| then patched[q] else ""
  }

  /** The line before position `q`, if the diff shows it. */
  function Before(patched: seq<string>, hunks: seq<Hunk>, q: nat): string {
    if Shown(hunks, 0, q - 1) then At(patched, q - 1) else ""
  }

  /** What to report for an added line at position `q`: it and the line before it, if the diff shows that one. */
  function LineAt(name: string, patched: seq<string>, hunks: seq<Hunk>, q: nat): AddedLine {
    AddedLine(name, q + 1, At(patched, q), Before(patched, hunks, q))
  }

  function LinesAt(name: string, patched: seq<string>, hunks: seq<Hunk>, positions: seq<nat>): (r: seq<AddedLine>)
    ensures |r| == |positions|
    decreases |positions|
  {
    if positions == [] then []
    else
      var n := |positions| - 1;
      LinesAt(name, patched, hunks, positions[..n]) + [LineAt(name, patched, hunks, positions[n])]
  }

  /** The report of the added lines of `f`, under the name `name`. */
  function Report(name: string, f: FileDiff): seq<AddedLine>
    requires Fits(f.base, f.hunks)
  {
    LinesAt(name, Patched(f.base, f.hunks), f.hunks, AddedAt(f.hunks, 0))
  }

  function Expected(files: seq<FileDiff>): seq<AddedLine>
    requires forall i :: 0 <= i < |files| ==> Fits(files[i].base, files[i].hunks)
    decreases |files|
  {
    if files == [] then []
    else Expected(files[..|files| - 1]) + Report(files[|files| - 1].name, files[|files| - 1])
  }

  // ----- Well-formed diffs -----

  predicate Plain(text: string) {
    '\n' !in text
  }

  predicate PlainLine(l: Line) {
    l.NoNewline? || l.Blank? || Plain(l.text)
  }

  predicate PlainHunk(h: Hunk) {
    Plain(h.section) && forall i :: 0 <= i < |h.lines| ==> PlainLine(h.lines[i])
  }

  /** A line between the files: `diff --git`, `index`, `---`, `rename from` and the like. */
  predicate Inert(raw: string) {
    Plain(raw) && (raw == "" || raw[0] !in "+ @")
  }

  /** A hunk after one with a blank line does not touch it; hunks that touch are one. */
  predicate Apart(hunks: seq<Hunk>) {
    forall i :: 0 < i < |hunks| && !NoBlank(hunks[i - 1].lines) ==> hunks[i].skip >= 1
  }

  predicate NoBlank(lines: seq<Line>) {
    forall i :: 0 <= i < |lines| ==> !lines[i].Blank?
  }

  predicate WellFormed(f: FileDiff) {
    && f.name != "" && Plain(f.target) && Apart(f.hunks)
    && Fits(f.base, f.hunks)
    && (forall i :: 0 <= i < |f.preamble| ==> Inert(f.preamble[i]))
    && (forall i :: 0 <= i < |f.hunks| ==> PlainHunk(f.hunks[i]))
  }

  /** Every file is well-formed, and no two headers name the same file. */
  predicate ProperDiff(files: seq<FileDiff>) {
    && (forall i :: 0 <= i < |files| ==> WellFormed(files[i]))
    && (forall i, j :: 0 <= i < j < |files| && FileName(files[i].target) != "" ==>
         FileName(files[i].target) != FileName(files[j].target))
  }

  /** An added line that, with its sign, looks like a file header. */
  predicate Masked(l: Line) {
    l.Added? && Text.StartsWith(l.text, "++")
  }

  predicate NoMasked(lines: seq<Line>) {
    forall i :: 0 <= i < |lines| ==> !Masked(lines[i])
  }

  predicate NoMaskedHunks(hunks: seq<Hunk>) {
    forall i :: 0 <= i < |hunks| ==> NoMasked(hunks[i].lines)
  }

  /** No added line comes after a blank one. */
  predicate NoLate(lines: seq<Line>) {
    forall i, j :: 0 <= i < j < |lines| && lines[i].Blank? ==> !lines[j].Added?
  }

  predicate NoLateHunks(hunks: seq<Hunk>) {
    forall i :: 0 <= i < |hunks| ==> NoLate(hunks[i].lines)
  }

  // ----- Small facts about the parser -----

  lemma {:induction false} RunAppend(s: Parser, a: seq<string>, b: seq<string>)
    ensures Run(s, a + b) == Run(Run(s, a), b)
    decreases |b|
  {
    if b == [] {
      assert a + b == a;
    } else {
      assert (a + b)[..|a + b| - 1] == a + b[..|b| - 1];
      RunAppend(s, a, b[..|b| - 1]);
    }
  }

  lemma {:induction false} RunInert(s: Parser, lines: seq<string>)
    requires forall i :: 0 <= i < |lines| ==> Inert(lines[i])
    ensures Run(s, lines) == s
    decreases |lines|
  {
    if lines != [] {
      hide Step;
      RunInert(s, lines[..|lines| - 1]);
      StepInert(s, lines[|lines| - 1]);
    }
  }

  lemma StepInert(s: Parser, raw: string)
    requires Inert(raw)
    ensures Step(s, raw) == s
  {
    hide HunkStart, FileName;
    assert raw != "" ==> raw[0] != '+' && raw[0] != '@' && raw[0] != ' ';
  }

  /** Behind its sign an added line looks like a header exactly if its text begins with two more. */
  lemma SignedPrefix(text: string)
    ensures Text.StartsWith("+" + text, "+") && ("+" + text)[1..] == text
    ensures Text.StartsWith("+" + text, "+++") <==> Text.StartsWith(text, "++")
    ensures Text.StartsWith("+" + text, "+++ ") ==> Text.StartsWith(text, "++")
    ensures !Text.StartsWith("+" + text, "@@")
  {
    var raw := "+" + text;
    assert raw[0] == '+' && raw[..1] == "+";
    if |text| >= 2 {
      assert raw[..3] == "+" + text[..2] && text[..2] == raw[..3][1..];
      assert "+++" == "+" + "++" && "+++"[1..] == "++";
    }
    if |text| >= 3 {
      assert raw[..4][..3] == raw[..3] && "+++ "[..3] == "+++";
    }
  }

  lemma StepAdded(s: Parser, text: string)
    requires s.file != "" && !Text.StartsWith(text, "++")
    ensures Step(s, "+" + text) == AddLine(s, text)
  {
    hide HunkStart, FileName, AddLine, Text.StartsWith;
    SignedPrefix(text);
  }

  lemma StepContext(s: Parser, text: string)
    requires s.file != ""
    ensures Step(s, " " + text) == Note(s, text)
  {
    hide HunkStart, FileName, Note;
    var raw := " " + text;
    assert raw[1..] == text && raw[0] == ' ' && raw[..1] == " ";
  }

  lemma StepOther(s: Parser, raw: string)
    requires raw != "" && raw[0] in "-\\"
    ensures Step(s, raw) == s
  {
    hide HunkStart, FileName;
    assert raw[0] != '+' && raw[0] != '@' && raw[0] != ' ';
  }

  /** Outside a file only a file header is noticed. */
  lemma {:induction false} RunQuiet(s: Parser, lines: seq<string>)
    requires s.file == "" && forall raw :: raw in lines ==> !Text.StartsWith(raw, "+++ ")
    ensures Run(s, lines) == s.(newLine := Run(s, lines).newLine)
    decreases |lines|
  {
    if lines != [] {
      RunQuiet(s, lines[..|lines| - 1]);
    }
  }

  lemma RangeIs(prefix: string, digits: string, tail: string)
    requires digits != [] && Decimals.AllDigits(digits) && tail != [] && !Decimals.IsDigit(tail[0])
    ensures Range(prefix + (digits + tail), prefix) == Some((Decimals.Value(digits), SkipCount(tail)))
  {
    hide Decimals.Leading, Decimals.Value, SkipCount;
    var s := prefix + (digits + tail);
    assert s[|prefix|..] == digits + tail;
    Decimals.LeadingIs(digits, tail);
    assert s[|prefix| + |digits|..] == tail;
  }

  lemma RangeParses(prefix: string, skipped: nat, count: nat, rest: string)
    requires rest != [] && !Decimals.IsDigit(rest[0]) && rest[0] != ','
    ensures Range(prefix + (PrintRange(skipped, count) + rest), prefix)
         == Some((if count == 0 then skipped else skipped + 1, rest))
  {
    hide *;
    var start := if count == 0 then skipped else skipped + 1;
    RangeParts(skipped, count, rest);
    CountSkipped(count, rest);
    RangeIs(prefix, Decimals.Print(start), PrintCount(count) + rest);
    Decimals.PrintValue(start);
  }

  lemma RangeParts(skipped: nat, count: nat, rest: string)
    ensures PrintRange(skipped, count) + rest
         == Decimals.Print(if count == 0 then skipped else skipped + 1) + (PrintCount(count) + rest)
  {
    hide Decimals.Print, PrintCount;
  }

  lemma CountSkipped(count: nat, rest: string)
    requires rest != [] && !Decimals.IsDigit(rest[0]) && rest[0] != ','
    ensures PrintCount(count) + rest != [] && !Decimals.IsDigit((PrintCount(count) + rest)[0])
    ensures SkipCount(PrintCount(count) + rest) == rest
  {
    hide Decimals.Print, Decimals.Leading;
    var tail := PrintCount(count) + rest;
    if count != 1 {
      assert tail[1..] == Decimals.Print(count) + rest;
      Decimals.LeadingIs(Decimals.Print(count), rest);
      assert tail[1 + |Decimals.Print(count)|..] == rest;
    }
  }

  lemma HeaderParses(oldAt: nat, newAt: nat, h: Hunk)
    ensures HunkStart(PrintHeader(oldAt, newAt, h)) == Some(if |NewSide(h.lines)| == 0 then newAt else newAt + 1)
  {
    hide Range, PrintRange;
    var tail := " @@" + h.section;
    RangeParses(" +", newAt, |NewSide(h.lines)|, tail);
    var rest := " +" + (PrintRange(newAt, |NewSide(h.lines)|) + tail);
    RangeParses("@@ -", oldAt, |OldSide(h.lines)|, rest);
  }

  lemma HeaderStep(s: Parser, oldAt: nat, newAt: nat, h: Hunk)
    ensures Step(s, PrintHeader(oldAt, newAt, h)) == s.(newLine := if |NewSide(h.lines)| == 0 then newAt else newAt + 1)
  {
    hide HunkStart, PrintRange;
    HeaderParses(oldAt, newAt, h);
  }

  // ----- Positions in the patched file -----

  /** The new sides of the hunks are where they belong in `patched`. */
  ghost predicate Placed(patched: seq<string>, hunks: seq<Hunk>, at: nat)
    decreases |hunks|
  {
    hunks == []
    || (var start, side := at + hunks[0].skip, NewSide(hunks[0].lines);
        && (forall q :: start <= q < start + |side| ==> At(patched, q) == side[q - start])
        && Placed(patched, hunks[1..], start + |side|))
  }

  lemma {:induction false} PatchedIsPlaced(prefix: seq<string>, base: seq<string>, hunks: seq<Hunk>)
    requires Fits(base, hunks)
    ensures Placed(prefix + Patched(base, hunks), hunks, |prefix|)
    decreases |hunks|
  {
    hide *;
    if hunks == [] {
      NothingPlaced(prefix + Patched(base, hunks), |prefix|);
    } else {
      var h := hunks[0];
      FirstPatched(base, hunks);
      var rest := base[h.skip + |OldSide(h.lines)|..];
      var longer := prefix + base[..h.skip] + NewSide(h.lines);
      assert longer + Patched(rest, hunks[1..]) == prefix + Patched(base, hunks);
      PatchedIsPlaced(longer, rest, hunks[1..]);
      InTheMiddle(prefix + base[..h.skip], NewSide(h.lines), Patched(rest, hunks[1..]));
      FirstPlaced(prefix + Patched(base, hunks), hunks, |prefix|);
    }
  }

  lemma NothingPlaced(patched: seq<string>, at: nat)
    ensures Placed(patched, [], at)
  {
  }

  lemma FirstPatched(base: seq<string>, hunks: seq<Hunk>)
    requires Fits(base, hunks) && hunks != []
    ensures var h := hunks[0];
      && h.skip + |OldSide(h.lines)| <= |base|
      && Fits(base[h.skip + |OldSide(h.lines)|..], hunks[1..])
      && Patched(base, hunks) == base[..h.skip] + NewSide(h.lines) + Patched(base[h.skip + |OldSide(h.lines)|..], hunks[1..])
  {
    hide OldSide, NewSide;
  }

  lemma FirstPlaced(patched: seq<string>, hunks: seq<Hunk>, at: nat)
    requires hunks != []
    requires var start, side := at + hunks[0].skip, NewSide(hunks[0].lines);
      && (forall q :: start <= q < start + |side| ==> At(patched, q) == side[q - start])
      && Placed(patched, hunks[1..], start + |side|)
    ensures Placed(patched, hunks, at)
  {
    hide NewSide, At;
  }

  lemma InTheMiddle(a: seq<string>, b: seq<string>, c: seq<string>)
    ensures forall q :: |a| <= q < |a| + |b| ==> At(a + b + c, q) == b[q - |a|]
  {
  }

  lemma {:induction false} ShownLater(hunks: seq<Hunk>, at: nat, q: int)
    requires q < at
    ensures !Shown(hunks, at, q)
    decreases |hunks|
  {
    if hunks != [] {
      ShownLater(hunks[1..], at + hunks[0].skip + |NewSide(hunks[0].lines)|, q);
    }
  }

  // ----- Parsing the hunks of one file -----

  /** No line is noted under a number above `at`. */
  ghost predicate UpTo(recent: map<int, string>, at: nat) {
    forall n :: n in recent ==> n <= at
  }

  /** And under `at` there is the line before position `at`, if the diff shows that one. */
  ghost predicate Edge(recent: map<int, string>, patched: seq<string>, hunks: seq<Hunk>, at: nat) {
    UpTo(recent, at) && Noted(recent, at) == Before(patched, hunks, at)
  }

  /** The parser is in the file `name`, and noted nothing from position `at` on. */
  ghost predicate InFile(s: Parser, name: string, at: nat) {
    s.file == name != "" && name in s.recent && UpTo(s.recent[name], at)
  }

  /** The parser is in the file `name` of the diff, up to position `at`. */
  ghost predicate Inside(s: Parser, name: string, patched: seq<string>, hunks: seq<Hunk>, at: nat) {
    InFile(s, name, at) && Edge(s.recent[name], patched, hunks, at)
  }

  function Counts(l: Line): (n: nat)
    ensures n <= 1
  {
    if l.Context? || l.Added? then 1 else 0
  }

  lemma NoteEdge(s: Parser, text: string, name: string, patched: seq<string>, all: seq<Hunk>, at: nat)
    requires Inside(s, name, patched, all, at) && s.newLine == at + 1 && Shown(all, 0, at) && At(patched, at) == text
    ensures Inside(Note(s, text), name, patched, all, at + 1)
  {
    hide Shown, At;
    var after := s.recent[name][s.newLine := text];
    assert Note(s, text).recent[name] == after;
    assert Shown(all, 0, at + 1 - 1) && At(patched, at + 1 - 1) == text;
  }

  lemma LineParsed(s: Parser, l: Line, name: string, patched: seq<string>, all: seq<Hunk>, at: nat)
    requires Inside(s, name, patched, all, at) && !Masked(l) && !l.Blank?
    requires Counts(l) == 1 ==> s.newLine == at + 1 && Shown(all, 0, at) && NewText(l) == [At(patched, at)]
    ensures var s' := Step(s, PrintLine(l));
      && Inside(s', name, patched, all, at + Counts(l))
      && s'.recent.Keys == s.recent.Keys
      && s'.newLine == s.newLine + Counts(l)
      && s'.added == s.added + (if l.Added? then [LineAt(name, patched, all, at)] else [])
  {
    hide Shown, At, Step;
    match l
    case Context(text) =>
      NoteEdge(s, text, name, patched, all, at);
      StepContext(s, text);
    case Added(text) =>
      NoteEdge(s, text, name, patched, all, at);
      StepAdded(s, text);
    case _ => StepOther(s, PrintLine(l));
  }

  /** A line that is not added, wherever the parser counts: it notes nothing above its number. */
  lemma UncountedParsed(s: Parser, l: Line, name: string, at: nat)
    requires InFile(s, name, at) && !l.Added? && (Counts(l) == 1 ==> s.newLine <= at + 1)
    ensures var s' := Step(s, PrintLine(l));
      && InFile(s', name, at + |NewText(l)|) && s'.recent.Keys == s.recent.Keys
      && s'.newLine == s.newLine + Counts(l) && s'.added == s.added
  {
    hide Step;
    match l
    case Context(text) => StepContext(s, text);
    case Blank => StepInert(s, "");
    case _ => StepOther(s, PrintLine(l));
  }

  /** The lines `side` are those of `patched` from `at` on, and the diff shows them. */
  ghost predicate Stands(side: seq<string>, patched: seq<string>, all: seq<Hunk>, at: nat) {
    forall q :: at <= q < at + |side| ==> Shown(all, 0, q) && At(patched, q) == side[q - at]
  }

  lemma StandsFront(side: seq<string>, last: string, patched: seq<string>, all: seq<Hunk>, at: nat)
    requires Stands(side + [last], patched, all, at)
    ensures Stands(side, patched, all, at)
    ensures Shown(all, 0, at + |side|) && At(patched, at + |side|) == last
  {
    hide Shown, At;
    forall q | at <= q < at + |side| ensures Shown(all, 0, q) && At(patched, q) == side[q - at] {
      assert (side + [last])[q - at] == side[q - at];
    }
    assert (side + [last])[at + |side| - at] == last;
  }

  /**
    The lines of a hunk without an added line after a blank one. As long as no blank line came, the parser's
    numbers are right; after one they lag behind, but only unchanged lines are noted under them.
   */
  lemma {:induction false} LinesParsed(s: Parser, lines: seq<Line>, name: string, patched: seq<string>, all: seq<Hunk>, at: nat)
    requires Inside(s, name, patched, all, at) && NoMasked(lines) && NoLate(lines)
    requires s.newLine == at + 1 || NewSide(lines) == []
    requires Stands(NewSide(lines), patched, all, at)
    ensures var s' := Run(s, PrintLines(lines));
      && InFile(s', name, at + |NewSide(lines)|)
      && s'.recent.Keys == s.recent.Keys
      && s'.newLine <= s.newLine + |NewSide(lines)|
      && s'.added == s.added + LinesAt(name, patched, all, AddedIn(lines, at))
      && (NoBlank(lines) ==>
            Inside(s', name, patched, all, at + |NewSide(lines)|) && s'.newLine == s.newLine + |NewSide(lines)|)
    decreases |lines|
  {
    hide *;
    if lines == [] {
      assert NewSide([]) == [] && PrintLines([]) == [] && AddedIn([], at) == [] by { NoLines(at); }
      assert Run(s, []) == s && LinesAt(name, patched, all, []) == [] by { NoRun(s, name, patched, all); }
      InsideIsInFile(s, name, patched, all, at);
    } else {
      var before, last := lines[..|lines| - 1], lines[|lines| - 1];
      SideStep(lines);
      FrontLines(s, lines);
      FrontLate(lines);
      if NewText(last) != [] {
        assert NewText(last) == [NewText(last)[0]];
        StandsFront(NewSide(before), NewText(last)[0], patched, all, at);
      } else {
        assert NewSide(lines) == NewSide(before);
      }
      LinesParsed(s, before, name, patched, all, at);
      AddedStep(lines, name, patched, all, at);
      var s1 := Run(s, PrintLines(before));
      if NoBlank(before) && !last.Blank? {
        LineParsed(s1, last, name, patched, all, at + |NewSide(before)|);
        InsideIsInFile(Step(s1, PrintLine(last)), name, patched, all, at + |NewSide(lines)|);
      } else {
        UncountedParsed(s1, last, name, at + |NewSide(before)|);
      }
    }
  }

  lemma InsideIsInFile(s: Parser, name: string, patched: seq<string>, all: seq<Hunk>, at: nat)
    ensures Inside(s, name, patched, all, at) ==> InFile(s, name, at)
  {
    hide UpTo, Edge;
  }

  lemma FrontLate(lines: seq<Line>)
    requires lines != []
    ensures var before, last := lines[..|lines| - 1], lines[|lines| - 1];
      && (NoBlank(lines) <==> NoBlank(before) && !last.Blank?)
      && (NoLate(lines) <==> NoLate(before) && (last.Added? ==> NoBlank(before)))
  {
    var before, n := lines[..|lines| - 1], |lines| - 1;
    assert forall i :: 0 <= i < n ==> before[i] == lines[i];
    if NoLate(before) && (lines[n].Added? ==> NoBlank(before)) {
      forall i, j | 0 <= i < j < |lines| && lines[i].Blank? ensures !lines[j].Added? {
        if j < n {
          assert before[i].Blank?;
        } else {
          assert before[i].Blank?;
        }
      }
    }
    if NoLate(lines) && lines[n].Added? {
      forall i | 0 <= i < n ensures !before[i].Blank? {
        assert lines[i] == before[i];
      }
    }
  }

  lemma NoLines(at: nat)
    ensures NewSide([]) == [] && PrintLines([]) == [] && AddedIn([], at) == []
  {
  }

  lemma NoRun(s: Parser, name: string, patched: seq<string>, all: seq<Hunk>)
    ensures Run(s, []) == s && LinesAt(name, patched, all, []) == []
  {
  }

  lemma FrontLines(s: Parser, lines: seq<Line>)
    requires lines != []
    ensures var before, last := lines[..|lines| - 1], lines[|lines| - 1];
      && Run(s, PrintLines(lines)) == Step(Run(s, PrintLines(before)), PrintLine(last))
      && (NoMasked(lines) ==> NoMasked(before) && !Masked(last))
  {
    hide Step, PrintLine, Masked;
    assert PrintLines(lines)[..|lines| - 1] == PrintLines(lines[..|lines| - 1]);
  }

  lemma SideStep(lines: seq<Line>)
    requires lines != []
    ensures var before, last := lines[..|lines| - 1], lines[|lines| - 1];
      && NewSide(lines) == NewSide(before) + NewText(last) && |NewText(last)| <= 1
      && (|NewText(last)| == Counts(last) || last.Blank?) && (last.Blank? ==> Counts(last) == 0 && |NewText(last)| == 1)
      && (Counts(last) == 1 <==> last.Context? || last.Added?)
  {
  }

  lemma AddedStep(lines: seq<Line>, name: string, patched: seq<string>, all: seq<Hunk>, at: nat)
    requires lines != []
    ensures var before := lines[..|lines| - 1];
      LinesAt(name, patched, all, AddedIn(lines, at))
      == LinesAt(name, patched, all, AddedIn(before, at))
         + (if lines[|lines| - 1].Added? then [LineAt(name, patched, all, at + |NewSide(before)|)] else [])
  {
    hide LineAt, NewSide;
    var before, after := AddedIn(lines[..|lines| - 1], at), AddedIn(lines, at);
    if lines[|lines| - 1].Added? {
      assert after[..|before|] == before;
    } else {
      assert after == before;
    }
  }

  /** Between two hunks nothing is shown and nothing noted. */
  lemma SkipEdge(recent: map<int, string>, patched: seq<string>, all: seq<Hunk>, at: nat, to: nat)
    requires at <= to && UpTo(recent, at)
    requires at < to || Edge(recent, patched, all, at)
    requires forall q :: at <= q < to ==> !Shown(all, 0, q)
    ensures Edge(recent, patched, all, to)
  {
    hide Shown, At;
    if at < to {
      assert !Shown(all, 0, to - 1);
    }
  }

  /** From `at` on, `rest` is what is left of the hunks, and it is in its place. */
  ghost predicate Left(rest: seq<Hunk>, patched: seq<string>, all: seq<Hunk>, at: nat) {
    Placed(patched, rest, at) && forall q :: q >= at ==> Shown(all, 0, q) == Shown(rest, at, q)
  }

  lemma NextHunk(rest: seq<Hunk>, patched: seq<string>, all: seq<Hunk>, at: nat)
    requires rest != [] && Left(rest, patched, all, at)
    ensures var start, side := at + rest[0].skip, NewSide(rest[0].lines);
      && Left(rest[1..], patched, all, start + |side|)
      && Stands(side, patched, all, start)
      && forall q :: at <= q < start ==> !Shown(all, 0, q)
  {
    hide At;
    var start, side := at + rest[0].skip, NewSide(rest[0].lines);
    forall q | at <= q < start ensures !Shown(all, 0, q) {
      ShownLater(rest[1..], start + |side|, q);
    }
  }

  /** Ready for the hunks `rest`: the line before is noted, or the next hunk is not next to it. */
  ghost predicate Ready(s: Parser, rest: seq<Hunk>, name: string, patched: seq<string>, all: seq<Hunk>, at: nat) {
    InFile(s, name, at) && (Edge(s.recent[name], patched, all, at) || rest == [] || rest[0].skip >= 1)
  }

  lemma {:induction false} HunksParsed(s: Parser, rest: seq<Hunk>, name: string, patched: seq<string>, all: seq<Hunk>, oldAt: nat, at: nat)
    requires Ready(s, rest, name, patched, all, at) && Left(rest, patched, all, at)
    requires NoMaskedHunks(rest) && NoLateHunks(rest) && Apart(rest)
    ensures var s' := Run(s, PrintHunks(rest, oldAt, at));
      && s'.recent.Keys == s.recent.Keys
      && s'.added == s.added + LinesAt(name, patched, all, AddedAt(rest, at))
    decreases |rest|
  {
    hide *;
    if rest == [] {
      assert PrintHunks([], oldAt, at) == [] && AddedAt([], at) == [] by { NoHunks(oldAt, at); }
      assert Run(s, []) == s && LinesAt(name, patched, all, []) == [] by { NoRun(s, name, patched, all); }
    } else {
      var h, start := rest[0], at + rest[0].skip;
      var side := NewSide(h.lines);
      var s1 := Step(s, PrintHeader(oldAt + h.skip, start, h));
      NextHunk(rest, patched, all, at);
      HeaderEnters(s, rest, name, patched, all, oldAt + h.skip, at);
      NextUnmasked(rest);
      LinesParsed(s1, h.lines, name, patched, all, start);
      var s2 := Run(s1, PrintLines(h.lines));
      NextReady(s2, rest, name, patched, all, start + |side|);
      HunksParsed(s2, rest[1..], name, patched, all, oldAt + h.skip + |OldSide(h.lines)|, start + |side|);
      FrontHunk(s, rest, oldAt, at);
      assert AddedAt(rest, at) == AddedIn(h.lines, start) + AddedAt(rest[1..], start + |side|) by { FrontAdded(rest, at); }
      LinesAtAppend(name, patched, all, AddedIn(h.lines, start), AddedAt(rest[1..], start + |side|));
    }
  }

  lemma NoHunks(oldAt: nat, at: nat)
    ensures PrintHunks([], oldAt, at) == [] && AddedAt([], at) == []
  {
  }

  lemma NextUnmasked(rest: seq<Hunk>)
    requires rest != [] && NoMaskedHunks(rest) && NoLateHunks(rest) && Apart(rest)
    ensures NoMasked(rest[0].lines) && NoLate(rest[0].lines)
    ensures NoMaskedHunks(rest[1..]) && NoLateHunks(rest[1..]) && Apart(rest[1..])
    ensures |rest| > 1 && !NoBlank(rest[0].lines) ==> rest[1].skip >= 1
  {
    hide NoMasked, NoLate, NoBlank;
  }

  lemma NextReady(s: Parser, rest: seq<Hunk>, name: string, patched: seq<string>, all: seq<Hunk>, at: nat)
    requires rest != [] && InFile(s, name, at)
    requires NoBlank(rest[0].lines) ==> Inside(s, name, patched, all, at)
    requires |rest| > 1 && !NoBlank(rest[0].lines) ==> rest[1].skip >= 1
    ensures Ready(s, rest[1..], name, patched, all, at)
  {
    hide Edge, UpTo, NoBlank;
  }

  lemma FrontAdded(rest: seq<Hunk>, at: nat)
    requires rest != []
    ensures var start := at + rest[0].skip;
      AddedAt(rest, at) == AddedIn(rest[0].lines, start) + AddedAt(rest[1..], start + |NewSide(rest[0].lines)|)
  {
  }

  lemma HeaderEnters(s: Parser, rest: seq<Hunk>, name: string, patched: seq<string>, all: seq<Hunk>, oldAt: nat, at: nat)
    requires rest != [] && Ready(s, rest, name, patched, all, at)
    requires forall q :: at <= q < at + rest[0].skip ==> !Shown(all, 0, q)
    ensures var start := at + rest[0].skip;
      var s' := Step(s, PrintHeader(oldAt, start, rest[0]));
      && Inside(s', name, patched, all, start)
      && s'.recent == s.recent && s'.added == s.added
      && (s'.newLine == start + 1 || NewSide(rest[0].lines) == [])
  {
    hide Step, Shown, At, PrintHeader, NewSide, Edge;
    HeaderStep(s, oldAt, at + rest[0].skip, rest[0]);
    SkipEdge(s.recent[name], patched, all, at, at + rest[0].skip);
    EdgeIsUpTo(s.recent[name], patched, all, at + rest[0].skip);
  }

  lemma EdgeIsUpTo(recent: map<int, string>, patched: seq<string>, all: seq<Hunk>, at: nat)
    requires Edge(recent, patched, all, at)
    ensures UpTo(recent, at)
  {
  }

  lemma FrontPrinted(hunks: seq<Hunk>, oldAt: nat, at: nat)
    requires hunks != []
    ensures var h, start := hunks[0], at + hunks[0].skip;
      PrintHunks(hunks, oldAt, at)
      == [PrintHeader(oldAt + h.skip, start, h)] + PrintLines(h.lines)
         + PrintHunks(hunks[1..], oldAt + h.skip + |OldSide(h.lines)|, start + |NewSide(h.lines)|)
  {
    hide PrintHeader, PrintLines, OldSide, NewSide;
  }

  lemma FrontHunk(s: Parser, rest: seq<Hunk>, oldAt: nat, at: nat)
    requires rest != []
    ensures var h, start := rest[0], at + rest[0].skip;
      Run(s, PrintHunks(rest, oldAt, at))
      == Run(Run(Step(s, PrintHeader(oldAt + h.skip, start, h)), PrintLines(h.lines)),
             PrintHunks(rest[1..], oldAt + h.skip + |OldSide(h.lines)|, start + |NewSide(h.lines)|))
  {
    hide Step, PrintHeader, PrintLines;
    var h, start := rest[0], at + rest[0].skip;
    var header := [PrintHeader(oldAt + h.skip, start, h)];
    RunAppend(s, header + PrintLines(h.lines), PrintHunks(rest[1..], oldAt + h.skip + |OldSide(h.lines)|, start + |NewSide(h.lines)|));
    RunAppend(s, header, PrintLines(h.lines));
    assert header[..0] == [];
    assert Run(s, header) == Step(Run(s, []), header[0]);
  }

  lemma {:induction false} LinesAtAppend(name: string, patched: seq<string>, all: seq<Hunk>, a: seq<nat>, b: seq<nat>)
    ensures LinesAt(name, patched, all, a + b) == LinesAt(name, patched, all, a) + LinesAt(name, patched, all, b)
    decreases |b|
  {
    if b == [] {
      assert a + b == a;
    } else {
      assert (a + b)[..|a + b| - 1] == a + b[..|b| - 1];
      LinesAtAppend(name, patched, all, a, b[..|b| - 1]);
    }
  }

  // ----- The numbers the parser counts -----

  function Counted(lines: seq<Line>): nat
    decreases |lines|
  {
    if lines == [] then 0 else Counted(lines[..|lines| - 1]) + Counts(lines[|lines| - 1])
  }

  /** The numbers of the added lines of a hunk as the parser counts from `first` on. */
  function CountedIn(lines: seq<Line>, first: int): seq<int>
    decreases |lines|
  {
    if lines == [] then []
    else
      var before := lines[..|lines| - 1];
      CountedIn(before, first) + (if lines[|lines| - 1].Added? then [first + Counted(before)] else [])
  }

  function CountedAt(hunks: seq<Hunk>, at: nat): seq<int>
    decreases |hunks|
  {
    if hunks == [] then []
    else
      var start := at + hunks[0].skip;
      CountedIn(hunks[0].lines, start + 1) + CountedAt(hunks[1..], start + |NewSide(hunks[0].lines)|)
  }

  /** `added` has the numbers `numbers`, all in the file `name`. */
  ghost predicate HasNumbers(added: seq<AddedLine>, name: string, numbers: seq<int>) {
    |added| == |numbers| && forall k :: 0 <= k < |added| ==> added[k].file == name && added[k].line == numbers[k]
  }

  /** The parser went on in the file `name` and reported lines with these numbers. */
  ghost predicate Reported(s: Parser, s': Parser, name: string, numbers: seq<int>) {
    && s'.file == name && s'.recent.Keys == s.recent.Keys
    && |s'.added| >= |s.added| && s'.added[..|s.added|] == s.added
    && HasNumbers(s'.added[|s.added|..], name, numbers)
  }

  lemma ReportedMore(s: Parser, s1: Parser, s2: Parser, name: string, a: seq<int>, b: seq<int>)
    requires Reported(s, s1, name, a) && Reported(s1, s2, name, b)
    ensures Reported(s, s2, name, a + b)
  {
    hide HasNumbers;
    var x, y := s1.added[|s.added|..], s2.added[|s1.added|..];
    assert s1.added == s.added + x && s2.added == s1.added + y;
    assert s2.added == s.added + (x + y);
    assert s2.added[..|s.added|] == s.added && s2.added[|s.added|..] == x + y;
    NumbersTogether(x, y, name, a, b);
  }

  lemma NumbersTogether(x: seq<AddedLine>, y: seq<AddedLine>, name: string, a: seq<int>, b: seq<int>)
    requires HasNumbers(x, name, a) && HasNumbers(y, name, b)
    ensures HasNumbers(x + y, name, a + b)
  {
  }

  lemma LineCounted(s: Parser, l: Line, name: string)
    requires s.file == name != "" && name in s.recent && !Masked(l)
    ensures var s' := Step(s, PrintLine(l));
      Reported(s, s', name, if l.Added? then [s.newLine] else []) && s'.newLine == s.newLine + Counts(l)
  {
    hide Step;
    match l
    case Context(text) => StepContext(s, text);
    case Added(text) =>
      StepAdded(s, text);
      assert AddLine(s, text).added[|s.added|..] == [AddLine(s, text).added[|s.added|]];
    case Blank => StepInert(s, "");
    case _ => StepOther(s, PrintLine(l));
  }

  lemma {:induction false} LinesCounted(s: Parser, lines: seq<Line>, name: string)
    requires s.file == name != "" && name in s.recent && NoMasked(lines)
    ensures var s' := Run(s, PrintLines(lines));
      Reported(s, s', name, CountedIn(lines, s.newLine)) && s'.newLine == s.newLine + Counted(lines)
    decreases |lines|
  {
    hide *;
    if lines == [] {
      NoLinesCounted(s, name);
    } else {
      var before, last := lines[..|lines| - 1], lines[|lines| - 1];
      var s1 := Run(s, PrintLines(before));
      FrontLines(s, lines);
      LastCounted(lines, s.newLine);
      LinesCounted(s, before, name);
      ReportedFile(s, s1, name, CountedIn(before, s.newLine));
      LineCounted(s1, last, name);
      ReportedMore(s, s1, Step(s1, PrintLine(last)), name, CountedIn(before, s.newLine),
                   if last.Added? then [s1.newLine] else []);
    }
  }

  lemma NoLinesCounted(s: Parser, name: string)
    requires s.file == name
    ensures Run(s, PrintLines([])) == s && Reported(s, s, name, CountedIn([], s.newLine)) && Counted([]) == 0
  {
    assert s.added[|s.added|..] == [];
  }

  lemma LastCounted(lines: seq<Line>, first: int)
    requires lines != []
    ensures var before, last := lines[..|lines| - 1], lines[|lines| - 1];
      && Counted(lines) == Counted(before) + Counts(last)
      && CountedIn(lines, first) == CountedIn(before, first) + (if last.Added? then [first + Counted(before)] else [])
  {
  }

  lemma ReportedFile(s: Parser, s': Parser, name: string, numbers: seq<int>)
    requires Reported(s, s', name, numbers) && name in s.recent
    ensures s'.file == name && name in s'.recent
  {
    hide HasNumbers;
    assert name in s.recent.Keys;
  }

  /** Wherever the hunks are, the parser numbers their added lines by counting the lines that begin with a plus or a space. */
  lemma {:induction false} HunksCounted(s: Parser, rest: seq<Hunk>, name: string, oldAt: nat, at: nat)
    requires s.file == name != "" && name in s.recent && NoMaskedHunks(rest)
    ensures Reported(s, Run(s, PrintHunks(rest, oldAt, at)), name, CountedAt(rest, at))
    decreases |rest|
  {
    hide *;
    if rest == [] {
      NothingReported(s, name, oldAt, at);
    } else {
      var h, start := rest[0], at + rest[0].skip;
      var s1 := Step(s, PrintHeader(oldAt + h.skip, start, h));
      var s2 := Run(s1, PrintLines(h.lines));
      HeaderStep(s, oldAt + h.skip, start, h);
      HeaderReports(s, s1, name);
      FirstUnmasked(rest);
      FrontCounted(rest, at);
      ReportedFile(s, s1, name, []);
      LinesCounted(s1, h.lines, name);
      NothingCounted(h.lines, start, s1.newLine);
      ReportedFile(s1, s2, name, CountedIn(h.lines, s1.newLine));
      HunksCounted(s2, rest[1..], name, oldAt + h.skip + |OldSide(h.lines)|, start + |NewSide(h.lines)|);
      FrontHunk(s, rest, oldAt, at);
      ReportedMore(s, s1, s2, name, [], CountedIn(h.lines, s1.newLine));
      assert [] + CountedIn(h.lines, s1.newLine) == CountedIn(h.lines, s1.newLine);
      ReportedMore(s, s2, Run(s2, PrintHunks(rest[1..], oldAt + h.skip + |OldSide(h.lines)|, start + |NewSide(h.lines)|)),
                   name, CountedIn(h.lines, s1.newLine), CountedAt(rest[1..], start + |NewSide(h.lines)|));
    }
  }

  lemma NothingReported(s: Parser, name: string, oldAt: nat, at: nat)
    requires s.file == name
    ensures Reported(s, Run(s, PrintHunks([], oldAt, at)), name, CountedAt([], at))
  {
    assert s.added[|s.added|..] == [];
  }

  lemma FirstUnmasked(hunks: seq<Hunk>)
    requires hunks != [] && NoMaskedHunks(hunks)
    ensures NoMasked(hunks[0].lines) && NoMaskedHunks(hunks[1..])
  {
    hide NoMasked;
  }

  lemma FrontCounted(hunks: seq<Hunk>, at: nat)
    requires hunks != []
    ensures var start := at + hunks[0].skip;
      CountedAt(hunks, at) == CountedIn(hunks[0].lines, start + 1) + CountedAt(hunks[1..], start + |NewSide(hunks[0].lines)|)
  {
    hide CountedIn, NewSide;
  }

  lemma HeaderReports(s: Parser, s': Parser, name: string)
    requires s.file == name && s' == s.(newLine := s'.newLine)
    ensures Reported(s, s', name, [])
  {
    assert s'.added[|s.added|..] == [];
  }

  /** A hunk whose header names the line before has no added line to number. */
  lemma {:induction false} NothingCounted(lines: seq<Line>, start: nat, first: int)
    requires first == start + 1 || NewSide(lines) == []
    ensures CountedIn(lines, first) == CountedIn(lines, start + 1)
    decreases |lines|
  {
    if lines != [] && first != start + 1 {
      NothingCounted(lines[..|lines| - 1], start, first);
    }
  }

  /** The numbers are those of the positions. */
  predicate SameNumbers(numbers: seq<int>, positions: seq<nat>) {
    |numbers| == |positions| && forall k :: 0 <= k < |numbers| ==> numbers[k] == positions[k] + 1
  }

  lemma {:induction false} CountedFewer(lines: seq<Line>)
    ensures Counted(lines) <= |NewSide(lines)|
    ensures Counted(lines) == |NewSide(lines)| <==> NoBlank(lines)
    decreases |lines|
  {
    if lines != [] {
      hide NoBlank, Counts;
      CountedFewer(lines[..|lines| - 1]);
      SideStep(lines);
      FrontLate(lines);
    } else {
      assert NoBlank(lines);
    }
  }

  lemma NumbersAppend(a: seq<int>, p: seq<nat>, b: seq<int>, q: seq<nat>)
    requires |a| == |p| && |b| == |q|
    ensures SameNumbers(a + b, p + q) <==> SameNumbers(a, p) && SameNumbers(b, q)
  {
    if SameNumbers(a + b, p + q) {
      forall k | 0 <= k < |a| ensures a[k] == p[k] + 1 {
        assert (a + b)[k] == a[k] && (p + q)[k] == p[k];
      }
      forall k | 0 <= k < |b| ensures b[k] == q[k] + 1 {
        assert (a + b)[|a| + k] == b[k] && (p + q)[|p| + k] == q[k];
      }
    }
  }

  /** In a hunk the counted numbers are right exactly if no added line comes after a blank one. */
  lemma {:induction false} CountedIsAdded(lines: seq<Line>, at: nat)
    ensures |CountedIn(lines, at + 1)| == |AddedIn(lines, at)|
    ensures SameNumbers(CountedIn(lines, at + 1), AddedIn(lines, at)) <==> NoLate(lines)
    decreases |lines|
  {
    if lines != [] {
      hide NoLate, NoBlank, SameNumbers, Counted, NewSide;
      var before, last := lines[..|lines| - 1], lines[|lines| - 1];
      CountedIsAdded(before, at);
      FrontLate(lines);
      CountedFewer(before);
      if last.Added? {
        NumbersAppend(CountedIn(before, at + 1), AddedIn(before, at), [at + 1 + Counted(before)], [at + |NewSide(before)|]);
        OneNumber(at + 1 + Counted(before), at + |NewSide(before)|);
      } else {
        assert CountedIn(lines, at + 1) == CountedIn(before, at + 1) && AddedIn(lines, at) == AddedIn(before, at);
      }
    } else {
      assert NoLate(lines);
    }
  }

  lemma OneNumber(n: int, q: nat)
    ensures SameNumbers([n], [q]) <==> n == q + 1
  {
    if SameNumbers([n], [q]) {
      assert [n][0] == [q][0] + 1;
    }
  }

  lemma {:induction false} CountedAtIsAdded(hunks: seq<Hunk>, at: nat)
    ensures |CountedAt(hunks, at)| == |AddedAt(hunks, at)|
    ensures SameNumbers(CountedAt(hunks, at), AddedAt(hunks, at)) <==> NoLateHunks(hunks)
    decreases |hunks|
  {
    hide *;
    if hunks == [] {
      NoNumbers(at);
    } else {
      FrontCounted(hunks, at);
      FrontAdded(hunks, at);
      var start := at + hunks[0].skip;
      CountedAtIsAdded(hunks[1..], start + |NewSide(hunks[0].lines)|);
      CountedIsAdded(hunks[0].lines, start);
      NumbersAppend(CountedIn(hunks[0].lines, start + 1), AddedIn(hunks[0].lines, start),
                    CountedAt(hunks[1..], start + |NewSide(hunks[0].lines)|), AddedAt(hunks[1..], start + |NewSide(hunks[0].lines)|));
      FirstLate(hunks);
    }
  }

  lemma NoNumbers(at: nat)
    ensures CountedAt([], at) == [] && AddedAt([], at) == [] && SameNumbers([], []) && NoLateHunks([])
  {
  }

  lemma FirstLate(hunks: seq<Hunk>)
    requires hunks != []
    ensures NoLateHunks(hunks) <==> NoLate(hunks[0].lines) && NoLateHunks(hunks[1..])
  {
    hide NoLate;
  }
}
