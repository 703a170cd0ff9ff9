/**
  The merge of coverage reports: every shard's report is read line by line into one record per source file,
  and the records are printed as one report.
 */
module Lcov {
  import opened Options
  import opened JsMaps
  import Text
  import Decimals

  // ----- Reading one report -----

  datatype Kind = LineKind | HitKind | BranchKind

  /** What a line of a report says: a file begins, a function is declared, or a count (`taken` None is the "-"). */
  datatype Event = File(file: string) | Fn(file: string, key: string)
    | Count(kind: Kind, file: string, key: string, taken: Option<int>)

  /** Where a report is being read: the current file, its functions so far, and how many of them have got a count. */
  datatype Reader = Reader(cur: Option<string>, fns: seq<string>, index: nat)

  function Part(parts: seq<string>, i: nat): string {
    if i < |parts| then parts[i] else "undefined"
  }

  function AfterComma(s: string): string {
    var n := Text.IndexOf(s, ',');
    if n == |s| then s else s[n + 1..]
  }

  function LineEvent(file: string, rest: string): Event {
    var parts := Text.Split(rest, ',');
    Count(LineKind, file, parts[0], Some(Decimals.ParseInt(Part(parts, 1))))
  }

  /** A function count belongs to the function at the same position in this file's part of the report. */
  function HitKey(r: Reader, rest: string): string {
    if r.index < |r.fns| then r.fns[r.index] else AfterComma(rest)
  }

  function HitEvent(r: Reader, file: string, rest: string): Event {
    Count(HitKind, file, HitKey(r, rest), Some(Decimals.ParseInt(Text.Split(rest, ',')[0])))
  }

  function BranchKey(parts: seq<string>): string {
    Part(parts, 0) + ("," + (Part(parts, 1) + ("," + Part(parts, 2))))
  }

  function BranchEvent(file: string, rest: string): Event {
    var parts := Text.Split(rest, ',');
    Count(BranchKind, file, BranchKey(parts),
          if Part(parts, 3) == "-" then None else Some(Decimals.ParseInt(Part(parts, 3))))
  }

  function EventOf(r: Reader, raw: string): Option<Event> {
    if Text.StartsWith(raw, "SF:") then Some(File(raw[3..]))
    else if r.cur == None then None
    else if Text.StartsWith(raw, "DA:") then Some(LineEvent(r.cur.value, raw[3..]))
    else if Text.StartsWith(raw, "FN:") then Some(Fn(r.cur.value, raw[3..]))
    else if Text.StartsWith(raw, "FNDA:") then Some(HitEvent(r, r.cur.value, raw[5..]))
    else if Text.StartsWith(raw, "BRDA:") then Some(BranchEvent(r.cur.value, raw[5..]))
    else None
  }

  function NextReader(r: Reader, raw: string): Reader {
    if Text.StartsWith(raw, "SF:") then Reader(Some(raw[3..]), [], 0)
    else if r.cur == None || Text.StartsWith(raw, "DA:") then r
    else if Text.StartsWith(raw, "FN:") then r.(fns := r.fns + [raw[3..]])
    else if Text.StartsWith(raw, "FNDA:") then r.(index := r.index + 1)
    else r
  }

  function ReaderAfter(r: Reader, raws: seq<string>): Reader
    decreases |raws|
  {
    if raws == [] then r else NextReader(ReaderAfter(r, raws[..|raws| - 1]), raws[|raws| - 1])
  }

  function EventsFrom(r: Reader, raws: seq<string>): seq<Event>
    decreases |raws|
  {
    if raws == [] then []
    else
      var before, last := raws[..|raws| - 1], raws[|raws| - 1];
      EventsFrom(r, before) + EventList(EventOf(ReaderAfter(r, before), last))
  }

  function EventList(e: Option<Event>): seq<Event> {
    if e == None then [] else [e.value]
  }

  /** What a report says. */
  function Start(): Reader {
    Reader(None, [], 0)
  }

  function Events(text: string): seq<Event> {
    EventsFrom(Start(), Text.Split(text, '\n'))
  }

  // ----- The records -----

  type Counts = JsMap<string, int>

  /** The record of a file: functions in order of their first appearance, and the three kinds of counts. */
  datatype Cov = Cov(fns: seq<string>, lines: Counts, hits: Counts, branches: Counts, numeric: set<string>)

  type Files = JsMap<string, Cov>

  function EmptyCov(): Cov {
    Cov([], Empty(), Empty(), Empty(), {})
  }

  function Get(m: Counts, key: string): int {
    if key in m.table then m.table[key] else 0
  }

  function Bump(m: Counts, key: string, count: int): Counts {
    m.Set(key, Get(m, key) + count)
  }

  /** A branch count of "-" makes the branch known; the first number replaces that, the others are added. */
  function AddBranch(cov: Cov, key: string, taken: Option<int>): Cov {
    match taken
    case None => if key in cov.numeric || key in cov.branches.table then cov else cov.(branches := cov.branches.Set(key, 0))
    case Some(t) =>
      cov.(branches := cov.branches.Set(key, if key in cov.numeric then Get(cov.branches, key) + t else t),
           numeric := cov.numeric + {key})
  }

  function Amount(taken: Option<int>): int {
    if taken == None then 0 else taken.value
  }

  function AddCount(cov: Cov, kind: Kind, key: string, taken: Option<int>): Cov {
    match kind
    case LineKind => cov.(lines := Bump(cov.lines, key, Amount(taken)))
    case HitKind => cov.(hits := Bump(cov.hits, key, Amount(taken)))
    case BranchKind => AddBranch(cov, key, taken)
  }

  function AddFn(fns: seq<string>, key: string): seq<string> {
    if key in fns then fns else fns + [key]
  }

  function CovOf(files: Files, file: string): Cov {
    if file in files.table then files.table[file] else EmptyCov()
  }

  function Update(cov: Cov, e: Event): Cov {
    match e
    case File(_) => cov
    case Fn(_, key) => cov.(fns := AddFn(cov.fns, key))
    case Count(kind, _, key, taken) => AddCount(cov, kind, key, taken)
  }

  function Apply(files: Files, e: Event): Files {
    files.Set(e.file, Update(CovOf(files, e.file), e))
  }

  function Build(files: Files, events: seq<Event>): Files
    decreases |events|
  {
    if events == [] then files else Apply(Build(files, events[..|events| - 1]), events[|events| - 1])
  }

  // ----- Printing -----

  function FnLines(fns: seq<string>): (r: seq<string>)
    ensures |r| == |fns|
    decreases |fns|
  {
    if fns == [] then [] else FnLines(fns[..|fns| - 1]) + ["FN:" + fns[|fns| - 1]]
  }

  function HitLine(m: Counts, key: string): string {
    "FNDA:" + (Decimals.PrintInt(Get(m, key)) + ("," + AfterComma(key)))
  }

  function LineLine(m: Counts, key: string): string {
    "DA:" + (key + ("," + Decimals.PrintInt(Get(m, key))))
  }

  function BranchLine(cov: Cov, key: string): string {
    "BRDA:" + (key + ("," + if key in cov.numeric then Decimals.PrintInt(Get(cov.branches, key)) else "-"))
  }

  function PrintCount(cov: Cov, kind: Kind, key: string): string {
    match kind
    case LineKind => LineLine(cov.lines, key)
    case HitKind => HitLine(cov.hits, key)
    case BranchKind => BranchLine(cov, key)
  }

  function CountsOf(cov: Cov, kind: Kind): Counts {
    match kind
    case LineKind => cov.lines
    case HitKind => cov.hits
    case BranchKind => cov.branches
  }

  /** The lines of the counts of one kind, for some keys. */
  function PrintCounts(cov: Cov, kind: Kind, keys: seq<string>): (r: seq<string>)
    ensures |r| == |keys|
    decreases |keys|
  {
    if keys == [] then [] else PrintCounts(cov, kind, keys[..|keys| - 1]) + [PrintCount(cov, kind, keys[|keys| - 1])]
  }

  /** How many of the keys have a positive count; a "-" has none. */
  function Positive(cov: Cov, kind: Kind, keys: seq<string>): (n: nat)
    ensures n <= |keys|
    decreases |keys|
  {
    if keys == [] then 0
    else
      var key := keys[|keys| - 1];
      var hit := (kind.BranchKind? ==> key in cov.numeric) && Get(CountsOf(cov, kind), key) > 0;
      Positive(cov, kind, keys[..|keys| - 1]) + if hit then 1 else 0
  }

  /** The two totals of a kind: how many there are and how many were hit. */
  function Totals(cov: Cov, kind: Kind, found: string, hit: string): seq<string> {
    var keys := CountsOf(cov, kind).order;
    [found + Decimals.Print(|keys|), hit + Decimals.Print(Positive(cov, kind, keys))]
  }

  function HitPart(cov: Cov): seq<string> {
    PrintCounts(cov, HitKind, cov.hits.order) + Totals(cov, HitKind, "FNF:", "FNH:")
  }

  function BranchPart(cov: Cov): seq<string> {
    PrintCounts(cov, BranchKind, cov.branches.order)
    + (if |cov.branches.order| > 0 then Totals(cov, BranchKind, "BRF:", "BRH:") else [])
  }

  function LinePart(cov: Cov): seq<string> {
    PrintCounts(cov, LineKind, cov.lines.order) + Totals(cov, LineKind, "LF:", "LH:")
  }

  function PrintRecord(file: string, cov: Cov): seq<string> {
    ["SF:" + file] + (FnLines(cov.fns) + (HitPart(cov) + (BranchPart(cov) + (LinePart(cov) + ["end_of_record"]))))
  }

  /** The records of the first `n` files. */
  function PrintRecords(files: Files, n: nat): seq<string>
    requires n <= |files.order|
  {
    if n == 0 then []
    else PrintRecords(files, n - 1) + PrintRecord(files.order[n - 1], CovOf(files, files.order[n - 1]))
  }

  function PrintReport(files: Files): string {
    Text.Join(PrintRecords(files, |files.order|), "\n") + "\n"
  }

  // ----- Merging -----

  /** What the reports of the shards say, one after the other; a shard may have no report. */
  function AllEvents(shards: seq<Option<string>>): seq<Event>
    decreases |shards|
  {
    if shards == [] then []
    else
      var last := shards[|shards| - 1];
      AllEvents(shards[..|shards| - 1]) + (if last == None then [] else Events(last.value))
  }

  function Merged(shards: seq<Option<string>>): Files {
    Build(Empty(), AllEvents(shards))
  }

  function HasReport(shards: seq<Option<string>>): bool {
    exists i :: 0 <= i < |shards| && shards[i].Some?
  }

  /** The merged report, if there is any report. */
  function Merge(shards: seq<Option<string>>): Option<string> {
    if HasReport(shards) then Some(PrintReport(Merged(shards))) else None
  }

  lemma {:induction false} BuildAppend(files: Files, a: seq<Event>, b: seq<Event>)
    ensures Build(files, a + b) == Build(Build(files, a), b)
    decreases |b|
  {
    if b == [] {
      assert a + b == a;
    } else {
      hide Apply;
      assert (a + b)[..|a + b| - 1] == a + b[..|b| - 1];
      BuildAppend(files, a, b[..|b| - 1]);
    }
  }

  lemma BuildOne(files: Files, events: seq<Event>, e: Option<Event>)
    ensures Build(files, events + EventList(e)) == if e == None then Build(files, events) else Apply(Build(files, events), e.value)
  {
    if e == None {
      assert events + [] == events;
    } else {
      assert (events + [e.value])[..|events|] == events;
    }
  }

  lemma SetSame(files: Files, file: string)
    requires file in files.table
    ensures files.Set(file, files.table[file]) == files
  {
  }

  /** One line of a report. */
  method ReadLine(files: Files, r: Reader, raw: string) returns (filesMap: Files, cur: Option<string>, blkFnAt: seq<string>, blkFndaIdx: nat)
    requires r.cur.Some? ==> r.cur.value in files.table
    ensures Reader(cur, blkFnAt, blkFndaIdx) == NextReader(r, raw)
    ensures filesMap == if EventOf(r, raw) == None then files else Apply(files, EventOf(r, raw).value)
    ensures cur.Some? ==> cur.value in filesMap.table
  {
    hide Text.Split, Decimals.ParseInt, Text.StartsWith, AddFn, AddCount, BranchKey, HitKey;
    filesMap, cur, blkFnAt, blkFndaIdx := files, r.cur, r.fns, r.index;
    if Text.StartsWith(raw, "SF:") {
      var sf := raw[3..];
      if sf !in filesMap.table {
        filesMap := filesMap.Set(sf, EmptyCov());
      } else {
        SetSame(files, sf);
      }
      cur, blkFnAt, blkFndaIdx := Some(sf), [], 0;
    } else if cur == None {
      // nothing belongs to no file
    } else if Text.StartsWith(raw, "DA:") {
      var cov := ReadLineCount(filesMap.table[cur.value], cur.value, raw[3..]);
      filesMap := filesMap.Set(cur.value, cov);
    } else if Text.StartsWith(raw, "FN:") {
      var entry, cov := raw[3..], filesMap.table[cur.value];
      filesMap := filesMap.Set(cur.value, cov.(fns := AddFn(cov.fns, entry)));
      blkFnAt := blkFnAt + [entry];
    } else if Text.StartsWith(raw, "FNDA:") {
      var cov := ReadHitCount(filesMap.table[cur.value], cur.value, r, raw[5..]);
      filesMap := filesMap.Set(cur.value, cov);
      blkFndaIdx := blkFndaIdx + 1;
    } else if Text.StartsWith(raw, "BRDA:") {
      var cov := ReadBranchCount(filesMap.table[cur.value], cur.value, raw[5..]);
      filesMap := filesMap.Set(cur.value, cov);
    }
  }

  method ReadLineCount(cov: Cov, file: string, rest: string) returns (cov': Cov)
    ensures cov' == Update(cov, LineEvent(file, rest))
  {
    hide Text.Split, Decimals.ParseInt;
    var parts := Text.Split(rest, ',');
    var line, count := parts[0], Decimals.ParseInt(Part(parts, 1));
    if line in cov.lines.table {
      cov' := cov.(lines := cov.lines.Set(line, cov.lines.table[line] + count));
    } else {
      cov' := cov.(lines := cov.lines.Set(line, count));
    }
  }

  method ReadHitCount(cov: Cov, file: string, r: Reader, rest: string) returns (cov': Cov)
    ensures cov' == Update(cov, HitEvent(r, file, rest))
  {
    hide Text.Split, Decimals.ParseInt, AfterComma;
    var count := Decimals.ParseInt(Text.Split(rest, ',')[0]);
    var fnFull := if r.index < |r.fns| then r.fns[r.index] else AfterComma(rest);
    if fnFull in cov.hits.table {
      cov' := cov.(hits := cov.hits.Set(fnFull, cov.hits.table[fnFull] + count));
    } else {
      cov' := cov.(hits := cov.hits.Set(fnFull, count));
    }
  }

  method ReadBranchCount(cov: Cov, file: string, rest: string) returns (cov': Cov)
    ensures cov' == Update(cov, BranchEvent(file, rest))
  {
    hide Text.Split, Decimals.ParseInt;
    var parts := Text.Split(rest, ',');
    var key, taken := BranchKey(parts), Part(parts, 3);
    cov' := cov;
    if taken == "-" {
      if key !in cov.numeric && key !in cov.branches.table {
        cov' := cov'.(branches := cov'.branches.Set(key, 0));
      }
    } else {
      var t := Decimals.ParseInt(taken);
      if key in cov.numeric {
        cov' := cov'.(branches := cov'.branches.Set(key, Get(cov.branches, key) + t));
      } else {
        cov' := cov'.(branches := cov'.branches.Set(key, t));
      }
      cov' := cov'.(numeric := cov'.numeric + {key});
    }
  }

  method ReadReport(files: Files, text: string) returns (filesMap: Files)
    ensures filesMap == Build(files, Events(text))
  {
    hide Text.Split, EventOf, NextReader, Apply;
    filesMap := files;
    var cur: Option<string>, blkFnAt: seq<string>, blkFndaIdx := None, [], 0;
    var raws := Text.Split(text, '\n');
    for n := 0 to |raws|
      invariant Reader(cur, blkFnAt, blkFndaIdx) == ReaderAfter(Start(), raws[..n])
      invariant filesMap == Build(files, EventsFrom(Start(), raws[..n]))
      invariant cur.Some? ==> cur.value in filesMap.table
    {
      assert raws[..n + 1][..n] == raws[..n];
      BuildOne(files, EventsFrom(Start(), raws[..n]), EventOf(Reader(cur, blkFnAt, blkFndaIdx), raws[n]));
      filesMap, cur, blkFnAt, blkFndaIdx := ReadLine(filesMap, Reader(cur, blkFnAt, blkFndaIdx), raws[n]);
    }
    assert raws[..|raws|] == raws;
  }

  method PrintHits(cov: Cov) returns (out: seq<string>)
    ensures out == HitPart(cov)
  {
    hide HitLine, Decimals.Print;
    out := [];
    var fnf, fnh := 0, 0;
    for n := 0 to |cov.hits.order|
      invariant out == PrintCounts(cov, HitKind, cov.hits.order[..n])
      invariant fnf == n && fnh == Positive(cov, HitKind, cov.hits.order[..n])
    {
      assert cov.hits.order[..n + 1][..n] == cov.hits.order[..n];
      var entry := cov.hits.order[n];
      out := out + [HitLine(cov.hits, entry)];
      fnf := fnf + 1;
      if Get(cov.hits, entry) > 0 {
        fnh := fnh + 1;
      }
    }
    assert cov.hits.order[..|cov.hits.order|] == cov.hits.order;
    out := out + ["FNF:" + Decimals.Print(fnf), "FNH:" + Decimals.Print(fnh)];
  }

  method PrintBranches(cov: Cov) returns (out: seq<string>)
    ensures out == BranchPart(cov)
  {
    hide BranchLine, Decimals.Print;
    out := [];
    var brf, brh := 0, 0;
    for n := 0 to |cov.branches.order|
      invariant out == PrintCounts(cov, BranchKind, cov.branches.order[..n])
      invariant brf == n && brh == Positive(cov, BranchKind, cov.branches.order[..n])
    {
      assert cov.branches.order[..n + 1][..n] == cov.branches.order[..n];
      var key := cov.branches.order[n];
      out := out + [BranchLine(cov, key)];
      brf := brf + 1;
      if key in cov.numeric && Get(cov.branches, key) > 0 {
        brh := brh + 1;
      }
    }
    assert cov.branches.order[..|cov.branches.order|] == cov.branches.order;
    if brf > 0 {
      out := out + ["BRF:" + Decimals.Print(brf), "BRH:" + Decimals.Print(brh)];
    } else {
      assert out == out + [];
    }
  }

  method PrintLineCounts(cov: Cov) returns (out: seq<string>)
    ensures out == LinePart(cov)
  {
    hide LineLine, Decimals.Print;
    out := [];
    var lf, lh := 0, 0;
    for n := 0 to |cov.lines.order|
      invariant out == PrintCounts(cov, LineKind, cov.lines.order[..n])
      invariant lf == n && lh == Positive(cov, LineKind, cov.lines.order[..n])
    {
      assert cov.lines.order[..n + 1][..n] == cov.lines.order[..n];
      var line := cov.lines.order[n];
      out := out + [LineLine(cov.lines, line)];
      lf := lf + 1;
      if Get(cov.lines, line) > 0 {
        lh := lh + 1;
      }
    }
    assert cov.lines.order[..|cov.lines.order|] == cov.lines.order;
    out := out + ["LF:" + Decimals.Print(lf), "LH:" + Decimals.Print(lh)];
  }

  method PrintRecordLines(file: string, cov: Cov) returns (out: seq<string>)
    ensures out == PrintRecord(file, cov)
  {
    hide HitPart, BranchPart, LinePart;
    var fns: seq<string> := [];
    for n := 0 to |cov.fns|
      invariant fns == FnLines(cov.fns[..n])
    {
      assert cov.fns[..n + 1][..n] == cov.fns[..n];
      fns := fns + ["FN:" + cov.fns[n]];
    }
    assert cov.fns[..|cov.fns|] == cov.fns;
    var hits := PrintHits(cov);
    var branches := PrintBranches(cov);
    var lines := PrintLineCounts(cov);
    out := ["SF:" + file] + (fns + (hits + (branches + (lines + ["end_of_record"]))));
  }

  /** The whole merge. */
  method MergeLcov(shards: seq<Option<string>>) returns (merged: Option<string>)
    ensures merged == Merge(shards)
  {
    hide Build, PrintRecord, Events, Apply;
    var filesMap: Files, sawAny := Empty(), false;
    assert Build(Empty(), []) == Empty() by { BuildNone(); }
    for n := 0 to |shards|
      invariant filesMap == Merged(shards[..n])
      invariant sawAny == HasReport(shards[..n])
    {
      assert shards[..n + 1][..n] == shards[..n];
      SawOne(shards, n);
      if shards[n].Some? {
        sawAny := true;
        BuildAppend(Empty(), AllEvents(shards[..n]), Events(shards[n].value));
        filesMap := ReadReport(filesMap, shards[n].value);
      } else {
        assert AllEvents(shards[..n]) + [] == AllEvents(shards[..n]);
      }
    }
    assert shards[..|shards|] == shards;
    if !sawAny {
      return None;
    }
    var out: seq<string> := [];
    for n := 0 to |filesMap.order|
      invariant out == PrintRecords(filesMap, n)
    {
      var record := PrintRecordLines(filesMap.order[n], CovOf(filesMap, filesMap.order[n]));
      out := out + record;
    }
    return Some(Text.Join(out, "\n") + "\n");
  }

  lemma BuildNone()
    ensures Build(Empty(), []) == Empty()
  {
  }

  lemma SawOne(shards: seq<Option<string>>, n: nat)
    requires n < |shards|
    ensures HasReport(shards[..n + 1]) <==> HasReport(shards[..n]) || shards[n].Some?
  {
    if HasReport(shards[..n]) {
      var i :| 0 <= i < n && shards[..n][i].Some?;
      assert shards[..n + 1][i].Some?;
    }
    assert shards[..n + 1][n] == shards[n];
    if HasReport(shards[..n + 1]) {
      var i :| 0 <= i < n + 1 && shards[..n + 1][i].Some?;
      assert i < n ==> shards[..n][i].Some?;
    }
  }
}
