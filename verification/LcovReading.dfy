/** What a merge reads in a report that a merge printed. */
module LcovReading {
  import opened Options
  import opened Lcov
  import Text
  import Decimals

  // ----- Telling the lines apart -----

  lemma NotPrefix(head: string, tail: string, prefix: string, i: nat)
    requires i < |head| && i < |prefix| && head[i] != prefix[i]
    ensures !Text.StartsWith(head + tail, prefix)
  {
    if |prefix| <= |head + tail| {
      assert (head + tail)[..|prefix|][i] == head[i];
    }
  }

  lemma IsPrefix(head: string, tail: string)
    ensures Text.StartsWith(head + tail, head) && (head + tail)[|head|..] == tail
  {
  }

  /** A line that says nothing to a merge: the totals and the end of a record. */
  lemma SilentLine(r: Reader, head: string, tail: string)
    requires |head| >= 3 && (head[0] !in "SDFB" || (head[0] in "FB" && head[2] in "FH"))
    ensures EventOf(r, head + tail) == None && NextReader(r, head + tail) == r
  {
    hide Text.StartsWith;
    NotPrefix(head, tail, "SF:", 0);
    NotPrefix(head, tail, "DA:", 0);
    NotPrefix(head, tail, "FN:", if head[0] == 'F' then 2 else 0);
    NotPrefix(head, tail, "FNDA:", if head[0] == 'F' then 2 else 0);
    NotPrefix(head, tail, "BRDA:", if head[0] == 'B' then 2 else 0);
  }

  // ----- The lines that say something -----

  lemma ReadFile(r: Reader, file: string)
    ensures EventOf(r, "SF:" + file) == Some(File(file)) && NextReader(r, "SF:" + file) == Reader(Some(file), [], 0)
  {
    hide Text.StartsWith;
    IsPrefix("SF:", file);
  }

  lemma ReadFn(r: Reader, file: string, key: string)
    requires r.cur == Some(file)
    ensures EventOf(r, "FN:" + key) == Some(Fn(file, key)) && NextReader(r, "FN:" + key) == r.(fns := r.fns + [key])
  {
    hide Text.StartsWith;
    IsPrefix("FN:", key);
    NotPrefix("FN:", key, "SF:", 0);
    NotPrefix("FN:", key, "DA:", 0);
  }

  lemma AfterCommaIs(head: string, tail: string)
    requires ',' !in head
    ensures AfterComma(head + ("," + tail)) == tail
  {
    Text.IndexOfFirst(head, tail, ',');
    assert (head + ("," + tail))[|head| + 1..] == tail;
  }

  lemma SplitTwo(head: string, tail: string)
    requires ',' !in head && ',' !in tail
    ensures Text.Split(head + ("," + tail), ',') == [head, tail]
  {
    hide Text.Split;
    Text.SplitFirst(head, tail, ',');
    Text.SplitNone(tail, ',');
    assert head + ("," + tail) == head + [','] + tail;
  }

  lemma SplitHeadPart(head: string, tail: string)
    requires ',' !in head
    ensures Text.Split(head + ("," + tail), ',')[0] == head
  {
    hide Text.Split;
    Text.SplitFirst(head, tail, ',');
    assert head + ("," + tail) == head + [','] + tail;
  }

  lemma ReadLineLine(r: Reader, file: string, m: Counts, key: string)
    requires r.cur == Some(file) && ',' !in key
    ensures EventOf(r, LineLine(m, key)) == Some(Count(LineKind, file, key, Some(Get(m, key))))
    ensures NextReader(r, LineLine(m, key)) == r
  {
    hide Text.StartsWith, Text.Split, Decimals.ParseInt, Decimals.PrintInt, Get;
    var rest := key + ("," + Decimals.PrintInt(Get(m, key)));
    IsPrefix("DA:", rest);
    NotPrefix("DA:", rest, "SF:", 0);
    Decimals.PrintIntPlain(Get(m, key), ',');
    SplitTwo(key, Decimals.PrintInt(Get(m, key)));
    Decimals.ParseIntPrint(Get(m, key));
  }

  lemma ReadHitLine(r: Reader, file: string, m: Counts, key: string)
    requires r.cur == Some(file)
    ensures EventOf(r, HitLine(m, key))
         == Some(Count(HitKind, file, if r.index < |r.fns| then r.fns[r.index] else AfterComma(key), Some(Get(m, key))))
    ensures NextReader(r, HitLine(m, key)) == r.(index := r.index + 1)
  {
    hide Text.StartsWith, Text.Split, Decimals.ParseInt, Decimals.PrintInt, Get, AfterComma;
    var count := Decimals.PrintInt(Get(m, key));
    var rest := count + ("," + AfterComma(key));
    IsPrefix("FNDA:", rest);
    NotPrefix("FNDA:", rest, "SF:", 0);
    NotPrefix("FNDA:", rest, "DA:", 0);
    NotPrefix("FNDA:", rest, "FN:", 2);
    Decimals.PrintIntPlain(Get(m, key), ',');
    SplitHeadPart(count, AfterComma(key));
    AfterCommaIs(count, AfterComma(key));
    Decimals.ParseIntPrint(Get(m, key));
  }

  /** A branch key: three parts. */
  predicate IsBranchKey(key: string) {
    |Text.Split(key, ',')| == 3
  }

  lemma BranchKeyParts(key: string, last: string)
    requires IsBranchKey(key) && ',' !in last
    ensures var parts := Text.Split(key + ("," + last), ','); |parts| == 4 && BranchKey(parts) == key && parts[3] == last
  {
    var parts := Text.Split(key, ',');
    Text.SplitAppend(key, "," + last, ',');
    Text.SplitPieces(key, ',');
    assert ',' !in parts[2];
    SplitTwo(parts[2], last);
    Text.JoinSplit(key, ',');
    JoinThree(parts);
  }

  lemma JoinThree(parts: seq<string>)
    requires |parts| == 3
    ensures Text.Join(parts, [',']) == parts[0] + ("," + (parts[1] + ("," + parts[2])))
  {
    assert parts[1..][1..] == [parts[2]];
    assert Text.Join(parts[1..], [',']) == parts[1] + [','] + parts[2];
  }

  lemma NumberIsNoDash(n: int)
    ensures Decimals.PrintInt(n) != "-"
  {
    hide Decimals.Print;
    if n >= 0 {
      assert Decimals.IsDigit(Decimals.PrintInt(n)[0]);
    } else {
      assert |Decimals.PrintInt(n)| > |"-"|;
    }
  }

  lemma ReadBranchLine(r: Reader, file: string, cov: Cov, key: string)
    requires r.cur == Some(file) && IsBranchKey(key)
    ensures EventOf(r, BranchLine(cov, key))
         == Some(Count(BranchKind, file, key, if key in cov.numeric then Some(Get(cov.branches, key)) else None))
    ensures NextReader(r, BranchLine(cov, key)) == r
  {
    hide Text.StartsWith, Text.Split, Decimals.ParseInt, Decimals.PrintInt, Get, BranchKey, IsBranchKey;
    var last := if key in cov.numeric then Decimals.PrintInt(Get(cov.branches, key)) else "-";
    var rest := key + ("," + last);
    IsPrefix("BRDA:", rest);
    NotPrefix("BRDA:", rest, "SF:", 0);
    NotPrefix("BRDA:", rest, "DA:", 0);
    NotPrefix("BRDA:", rest, "FN:", 0);
    NotPrefix("BRDA:", rest, "FNDA:", 0);
    Decimals.PrintIntPlain(Get(cov.branches, key), ',');
    BranchKeyParts(key, last);
    NumberIsNoDash(Get(cov.branches, key));
    Decimals.ParseIntPrint(Get(cov.branches, key));
  }

  // ----- A whole record -----

  function FnEvents(file: string, fns: seq<string>): seq<Event>
    decreases |fns|
  {
    if fns == [] then [] else FnEvents(file, fns[..|fns| - 1]) + [Fn(file, fns[|fns| - 1])]
  }

  /** The key under which the count of the `i`-th key is read back. */
  function ReadKey(cov: Cov, kind: Kind, i: nat, key: string): string {
    if kind.HitKind? then (if i < |cov.fns| then cov.fns[i] else AfterComma(key)) else key
  }

  function Taken(cov: Cov, kind: Kind, key: string): Option<int> {
    if kind.BranchKind? && key !in cov.numeric then None else Some(Get(CountsOf(cov, kind), key))
  }

  function CountEvents(file: string, cov: Cov, kind: Kind, keys: seq<string>): seq<Event>
    decreases |keys|
  {
    if keys == [] then []
    else
      var n := |keys| - 1;
      CountEvents(file, cov, kind, keys[..n])
      + [Count(kind, file, ReadKey(cov, kind, n, keys[n]), Taken(cov, kind, keys[n]))]
  }

  function Canon(file: string, cov: Cov): seq<Event> {
    [File(file)] + (FnEvents(file, cov.fns) + (CountEvents(file, cov, HitKind, cov.hits.order)
      + (CountEvents(file, cov, BranchKind, cov.branches.order) + CountEvents(file, cov, LineKind, cov.lines.order))))
  }

  predicate KeyFits(kind: Kind, key: string) {
    match kind
    case LineKind => ',' !in key
    case HitKind => true
    case BranchKind => IsBranchKey(key)
  }

  lemma {:induction false} EventsAppend(r: Reader, a: seq<string>, b: seq<string>)
    ensures ReaderAfter(r, a + b) == ReaderAfter(ReaderAfter(r, a), b)
    ensures EventsFrom(r, a + b) == EventsFrom(r, a) + EventsFrom(ReaderAfter(r, a), b)
    decreases |b|
  {
    hide EventOf, NextReader, EventList;
    if b == [] {
      assert a + b == a;
    } else {
      assert (a + b)[..|a + b| - 1] == a + b[..|b| - 1];
      EventsAppend(r, a, b[..|b| - 1]);
    }
  }

  lemma {:induction false} FnsRead(r: Reader, file: string, fns: seq<string>)
    requires r.cur == Some(file)
    ensures EventsFrom(r, FnLines(fns)) == FnEvents(file, fns)
    ensures ReaderAfter(r, FnLines(fns)) == r.(fns := r.fns + fns)
    decreases |fns|
  {
    hide EventOf, NextReader;
    if fns != [] {
      var n := |fns| - 1;
      FnsRead(r, file, fns[..n]);
      ReadFn(r.(fns := r.fns + fns[..n]), file, fns[n]);
      assert FnLines(fns)[..n] == FnLines(fns[..n]);
      assert r.fns + fns == r.fns + fns[..n] + [fns[n]];
    }
  }

  lemma CountRead(r: Reader, file: string, cov: Cov, kind: Kind, key: string)
    requires r.cur == Some(file) && KeyFits(kind, key)
    requires kind.HitKind? ==> r.fns == cov.fns
    ensures EventOf(r, PrintCount(cov, kind, key)) == Some(Count(kind, file, ReadKey(cov, kind, r.index, key), Taken(cov, kind, key)))
    ensures NextReader(r, PrintCount(cov, kind, key)) == r.(index := r.index + if kind.HitKind? then 1 else 0)
  {
    hide EventOf, NextReader, LineLine, HitLine, BranchLine, Get, AfterComma, IsBranchKey;
    match kind
    case LineKind => ReadLineLine(r, file, cov.lines, key);
    case HitKind => ReadHitLine(r, file, cov.hits, key);
    case BranchKind => ReadBranchLine(r, file, cov, key);
  }

  lemma {:induction false} CountsRead(r: Reader, file: string, cov: Cov, kind: Kind, keys: seq<string>)
    requires r.cur == Some(file) && forall i :: 0 <= i < |keys| ==> KeyFits(kind, keys[i])
    requires kind.HitKind? ==> r.fns == cov.fns && r.index == 0
    ensures EventsFrom(r, PrintCounts(cov, kind, keys)) == CountEvents(file, cov, kind, keys)
    ensures ReaderAfter(r, PrintCounts(cov, kind, keys)) == r.(index := r.index + if kind.HitKind? then |keys| else 0)
    decreases |keys|
  {
    hide *;
    if keys == [] {
      NoCounts(r, file, cov, kind);
    } else {
      var n := |keys| - 1;
      LastCount(file, cov, kind, keys);
      CountsRead(r, file, cov, kind, keys[..n]);
      OneMoreLine(r, PrintCounts(cov, kind, keys[..n]), PrintCount(cov, kind, keys[n]));
      CountRead(r.(index := r.index + if kind.HitKind? then n else 0), file, cov, kind, keys[n]);
      ListOfOne(EventOf(r.(index := r.index + if kind.HitKind? then n else 0), PrintCount(cov, kind, keys[n])));
      if !kind.HitKind? {
        ReadKeyPlain(cov, kind, r.index, n, keys[n]);
      }
    }
  }

  lemma NoCounts(r: Reader, file: string, cov: Cov, kind: Kind)
    ensures EventsFrom(r, PrintCounts(cov, kind, [])) == CountEvents(file, cov, kind, [])
    ensures ReaderAfter(r, PrintCounts(cov, kind, [])) == r
  {
  }

  lemma ListOfOne(e: Option<Event>)
    ensures e.Some? ==> EventList(e) == [e.value]
  {
  }

  lemma LastCount(file: string, cov: Cov, kind: Kind, keys: seq<string>)
    requires keys != []
    ensures var n := |keys| - 1;
      && PrintCounts(cov, kind, keys) == PrintCounts(cov, kind, keys[..n]) + [PrintCount(cov, kind, keys[n])]
      && CountEvents(file, cov, kind, keys) == CountEvents(file, cov, kind, keys[..n])
         + [Count(kind, file, ReadKey(cov, kind, n, keys[n]), Taken(cov, kind, keys[n]))]
  {
    hide PrintCount, ReadKey, Taken;
  }

  lemma OneMoreLine(r: Reader, raws: seq<string>, raw: string)
    ensures EventsFrom(r, raws + [raw]) == EventsFrom(r, raws) + EventList(EventOf(ReaderAfter(r, raws), raw))
    ensures ReaderAfter(r, raws + [raw]) == NextReader(ReaderAfter(r, raws), raw)
  {
    hide EventOf, NextReader, EventList;
    assert (raws + [raw])[..|raws|] == raws;
  }

  lemma ReadKeyPlain(cov: Cov, kind: Kind, i: nat, j: nat, key: string)
    requires !kind.HitKind?
    ensures ReadKey(cov, kind, i, key) == ReadKey(cov, kind, j, key)
  {
  }

  ghost predicate AllFit(cov: Cov) {
    forall kind: Kind, i :: 0 <= i < |CountsOf(cov, kind).order| ==> KeyFits(kind, CountsOf(cov, kind).order[i])
  }

  lemma TotalsSilent(r: Reader, cov: Cov, kind: Kind, found: string, hit: string)
    requires |found| >= 3 && (found[0] !in "SDFB" || (found[0] in "FB" && found[2] in "FH"))
    requires |hit| >= 3 && (hit[0] !in "SDFB" || (hit[0] in "FB" && hit[2] in "FH"))
    ensures EventsFrom(r, Totals(cov, kind, found, hit)) == [] && ReaderAfter(r, Totals(cov, kind, found, hit)) == r
  {
    hide EventOf, NextReader, Decimals.Print, Positive, CountsOf;
    var lines := Totals(cov, kind, found, hit);
    SilentLine(r, found, Decimals.Print(|CountsOf(cov, kind).order|));
    SilentLine(r, hit, Decimals.Print(Positive(cov, kind, CountsOf(cov, kind).order)));
    OneLine(r, lines[0]);
    OneLine(r, lines[1]);
    EventsAppend(r, [lines[0]], [lines[1]]);
    assert lines == [lines[0]] + [lines[1]];
  }

  lemma OneLine(r: Reader, raw: string)
    ensures EventsFrom(r, [raw]) == EventList(EventOf(r, raw)) && ReaderAfter(r, [raw]) == NextReader(r, raw)
  {
    hide EventOf, NextReader, EventList;
    assert [raw][..0] == [];
    assert EventsFrom(r, [raw]) == EventsFrom(r, []) + EventList(EventOf(ReaderAfter(r, []), raw));
  }

  lemma HitPartRead(r: Reader, file: string, cov: Cov)
    requires r.cur == Some(file) && r.fns == cov.fns && r.index == 0 && AllFit(cov)
    ensures EventsFrom(r, HitPart(cov)) == CountEvents(file, cov, HitKind, cov.hits.order)
    ensures ReaderAfter(r, HitPart(cov)).cur == Some(file)
  {
    hide Totals, PrintCounts, CountEvents, EventsFrom, ReaderAfter, KeyFits;
    var keys := CountsOf(cov, HitKind).order;
    CountsRead(r, file, cov, HitKind, keys);
    TotalsSilent(ReaderAfter(r, PrintCounts(cov, HitKind, keys)), cov, HitKind, "FNF:", "FNH:");
    EventsAppend(r, PrintCounts(cov, HitKind, keys), Totals(cov, HitKind, "FNF:", "FNH:"));
  }

  lemma BranchPartRead(r: Reader, file: string, cov: Cov)
    requires r.cur == Some(file) && AllFit(cov)
    ensures EventsFrom(r, BranchPart(cov)) == CountEvents(file, cov, BranchKind, cov.branches.order)
    ensures ReaderAfter(r, BranchPart(cov)).cur == Some(file)
  {
    hide Totals, PrintCounts, CountEvents, EventsFrom, ReaderAfter, KeyFits;
    var keys := CountsOf(cov, BranchKind).order;
    CountsRead(r, file, cov, BranchKind, keys);
    TotalsSilent(ReaderAfter(r, PrintCounts(cov, BranchKind, keys)), cov, BranchKind, "BRF:", "BRH:");
    EventsAppend(r, PrintCounts(cov, BranchKind, keys), Totals(cov, BranchKind, "BRF:", "BRH:"));
    if |keys| == 0 {
      assert BranchPart(cov) == PrintCounts(cov, BranchKind, keys);
    }
  }

  lemma LinePartRead(r: Reader, file: string, cov: Cov)
    requires r.cur == Some(file) && AllFit(cov)
    ensures EventsFrom(r, LinePart(cov)) == CountEvents(file, cov, LineKind, cov.lines.order)
    ensures ReaderAfter(r, LinePart(cov)).cur == Some(file)
  {
    hide Totals, PrintCounts, CountEvents, EventsFrom, ReaderAfter, KeyFits;
    var keys := CountsOf(cov, LineKind).order;
    CountsRead(r, file, cov, LineKind, keys);
    TotalsSilent(ReaderAfter(r, PrintCounts(cov, LineKind, keys)), cov, LineKind, "LF:", "LH:");
    EventsAppend(r, PrintCounts(cov, LineKind, keys), Totals(cov, LineKind, "LF:", "LH:"));
  }

  lemma EndRead(r: Reader)
    ensures EventsFrom(r, ["end_of_record"]) == []
  {
    hide EventOf, NextReader;
    SilentLine(r, "end", "_of_record");
    assert "end" + "_of_record" == "end_of_record";
    OneLine(r, "end_of_record");
  }

  /** A printed record is read as what it was printed from, whatever was read before it. */
  lemma RecordRead(r: Reader, file: string, cov: Cov)
    requires AllFit(cov)
    ensures EventsFrom(r, PrintRecord(file, cov)) == Canon(file, cov)
  {
    hide EventsFrom, ReaderAfter, EventOf, NextReader, FnLines, HitPart, BranchPart, LinePart, CountEvents, FnEvents, AllFit;
    var lines := LinePart(cov) + ["end_of_record"];
    var branches := BranchPart(cov) + lines;
    var hits := HitPart(cov) + branches;
    var fns := FnLines(cov.fns) + hits;
    var r1 := Reader(Some(file), [], 0);
    ReadFile(r, file);
    OneLine(r, "SF:" + file);
    EventsAppend(r, ["SF:" + file], fns);
    FnsRead(r1, file, cov.fns);
    assert r1.fns + cov.fns == cov.fns;
    EventsAppend(r1, FnLines(cov.fns), hits);
    var r2 := ReaderAfter(r1, FnLines(cov.fns));
    HitPartRead(r2, file, cov);
    EventsAppend(r2, HitPart(cov), branches);
    var r3 := ReaderAfter(r2, HitPart(cov));
    BranchPartRead(r3, file, cov);
    EventsAppend(r3, BranchPart(cov), lines);
    var r4 := ReaderAfter(r3, BranchPart(cov));
    LinePartRead(r4, file, cov);
    EventsAppend(r4, LinePart(cov), ["end_of_record"]);
    EndRead(ReaderAfter(r4, LinePart(cov)));
  }

  // ----- A whole report -----

  function CanonAll(files: Files, n: nat): seq<Event>
    requires n <= |files.order|
  {
    if n == 0 then [] else CanonAll(files, n - 1) + Canon(files.order[n - 1], CovOf(files, files.order[n - 1]))
  }

  ghost predicate FilesFit(files: Files) {
    forall i :: 0 <= i < |files.order| ==> AllFit(CovOf(files, files.order[i]))
  }

  lemma {:induction false} RecordsRead(r: Reader, files: Files, n: nat)
    requires FilesFit(files) && n <= |files.order|
    ensures EventsFrom(r, PrintRecords(files, n)) == CanonAll(files, n)
  {
    hide *;
    if n == 0 {
      NoRecords(r, files);
    } else {
      var file := files.order[n - 1];
      LastRecord(files, n);
      RecordsRead(r, files, n - 1);
      RecordRead(ReaderAfter(r, PrintRecords(files, n - 1)), file, CovOf(files, file));
      EventsAppend(r, PrintRecords(files, n - 1), PrintRecord(file, CovOf(files, file)));
    }
  }

  lemma NoRecords(r: Reader, files: Files)
    ensures EventsFrom(r, PrintRecords(files, 0)) == CanonAll(files, 0)
  {
  }

  lemma LastRecord(files: Files, n: nat)
    requires 0 < n <= |files.order|
    ensures var file := files.order[n - 1];
      && PrintRecords(files, n) == PrintRecords(files, n - 1) + PrintRecord(file, CovOf(files, file))
      && CanonAll(files, n) == CanonAll(files, n - 1) + Canon(file, CovOf(files, file))
      && (FilesFit(files) ==> AllFit(CovOf(files, file)))
  {
    hide AllFit, PrintRecord, Canon, CovOf;
  }

  /** No line of the report has a line end in it. */
  ghost predicate PlainLines(raws: seq<string>) {
    forall i :: 0 <= i < |raws| ==> '\n' !in raws[i]
  }

  /** The lines of a printed report are the printed lines and an empty one. */
  lemma ReportLines(raws: seq<string>)
    requires PlainLines(raws)
    ensures Text.Split(Text.Join(raws, "\n") + "\n", '\n') == (if raws == [] then [""] else raws) + [""]
  {
    hide Text.Split;
    var pieces := (if raws == [] then [""] else raws) + [""];
    Text.SplitJoin(pieces, '\n');
    JoinEnd(if raws == [] then [""] else raws, "\n");
  }

  lemma {:induction false} JoinEnd(raws: seq<string>, sep: string)
    requires raws != []
    ensures Text.Join(raws + [""], sep) == Text.Join(raws, sep) + sep
  {
    if |raws| == 1 {
      assert (raws + [""])[1..] == [""];
      assert Text.Join([""], sep) == "";
    } else {
      JoinEnd(raws[1..], sep);
      assert (raws + [""])[1..] == raws[1..] + [""];
      assert raws[0] + sep + (Text.Join(raws[1..], sep) + sep) == raws[0] + sep + Text.Join(raws[1..], sep) + sep;
    }
  }

  lemma EmptyLineSilent(r: Reader)
    ensures EventsFrom(r, [""]) == []
  {
    OneLine(r, "");
  }

  /** Reading a printed report gives back the records it was printed from. */
  lemma ReportRead(files: Files)
    requires FilesFit(files) && PlainLines(PrintRecords(files, |files.order|))
    ensures Events(PrintReport(files)) == CanonAll(files, |files.order|)
  {
    hide EventsFrom, ReaderAfter, PrintRecords, FilesFit, CanonAll, PlainLines;
    var raws := PrintRecords(files, |files.order|);
    ReportLines(raws);
    RecordsRead(Start(), files, |files.order|);
    EventsAppend(Start(), raws, [""]);
    EmptyLineSilent(ReaderAfter(Start(), raws));
    if raws == [] {
      EmptyLineSilent(Start());
      EventsAppend(Start(), [""], [""]);
      EmptyLineSilent(ReaderAfter(Start(), [""]));
      assert [] + [""] == [""];
    }
  }
}
