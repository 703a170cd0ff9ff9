/** What every merged record keeps: its keys can be printed and read back. */
module LcovProper {
  import opened Options
  import opened JsMaps
  import opened Lcov
  import opened LcovReading
  import LcovSums
  import Text
  import Decimals

  predicate Plain(s: string) {
    '\n' !in s
  }

  /** A key without line ends that fits its kind. */
  predicate GoodKey(kind: Kind, key: string) {
    Plain(key) && KeyFits(kind, key)
  }

  predicate GoodEvent(e: Event) {
    && Plain(e.file)
    && (e.Fn? ==> Plain(e.key))
    && (e.Count? ==> GoodKey(e.kind, e.key))
  }

  predicate GoodReader(r: Reader) {
    (r.cur.Some? ==> Plain(r.cur.value)) && forall i :: 0 <= i < |r.fns| ==> Plain(r.fns[i])
  }

  // ----- Reading -----

  lemma GoodLineEvent(file: string, rest: string)
    requires Plain(file) && Plain(rest)
    ensures GoodEvent(LineEvent(file, rest))
  {
    hide Text.Split, Decimals.ParseInt;
    Text.SplitPieces(rest, ',');
    Text.SplitChars(rest, ',', '\n');
  }

  lemma GoodHitEvent(r: Reader, file: string, rest: string)
    requires GoodReader(r) && Plain(file) && Plain(rest)
    ensures GoodEvent(HitEvent(r, file, rest))
  {
    hide Text.Split, Decimals.ParseInt;
  }

  lemma PartsMakeKey(a: string, b: string, c: string)
    requires ',' !in a && ',' !in b && ',' !in c
    ensures IsBranchKey(a + ("," + (b + ("," + c))))
  {
    hide Text.Split;
    SplitTwo(b, c);
    Text.SplitFirst(a, b + ("," + c), ',');
    assert a + [','] + (b + ("," + c)) == a + ("," + (b + ("," + c)));
  }

  lemma GoodBranchEvent(file: string, rest: string)
    requires Plain(file) && Plain(rest)
    ensures GoodEvent(BranchEvent(file, rest))
  {
    hide Text.Split, Decimals.ParseInt, IsBranchKey;
    var parts := Text.Split(rest, ',');
    Text.SplitPieces(rest, ',');
    Text.SplitChars(rest, ',', '\n');
    assert forall i: nat :: i < 3 ==> ',' !in Part(parts, i) && Plain(Part(parts, i));
    PartsMakeKey(Part(parts, 0), Part(parts, 1), Part(parts, 2));
  }

  lemma GoodLine(r: Reader, raw: string)
    requires GoodReader(r) && Plain(raw)
    ensures GoodReader(NextReader(r, raw))
    ensures EventOf(r, raw).Some? ==> GoodEvent(EventOf(r, raw).value)
  {
    hide Text.StartsWith, LineEvent, HitEvent, BranchEvent, GoodKey;
    if r.cur.Some? && |raw| >= 3 {
      GoodLineEvent(r.cur.value, raw[3..]);
    }
    if r.cur.Some? && |raw| >= 5 {
      GoodHitEvent(r, r.cur.value, raw[5..]);
      GoodBranchEvent(r.cur.value, raw[5..]);
    }
  }

  ghost predicate GoodEvents(events: seq<Event>) {
    forall i :: 0 <= i < |events| ==> GoodEvent(events[i])
  }

  lemma {:induction false} GoodLines(raws: seq<string>)
    requires forall i :: 0 <= i < |raws| ==> Plain(raws[i])
    ensures GoodReader(ReaderAfter(Start(), raws)) && GoodEvents(EventsFrom(Start(), raws))
    decreases |raws|
  {
    if raws != [] {
      hide EventOf, NextReader, GoodEvent, GoodReader, Plain;
      GoodLines(raws[..|raws| - 1]);
      GoodLine(ReaderAfter(Start(), raws[..|raws| - 1]), raws[|raws| - 1]);
    }
  }

  lemma {:induction false} GoodShards(shards: seq<Option<string>>)
    ensures GoodEvents(AllEvents(shards))
    decreases |shards|
  {
    if shards != [] {
      hide GoodEvent, EventsFrom, Text.Split;
      var last := shards[|shards| - 1];
      GoodShards(shards[..|shards| - 1]);
      if last.Some? {
        Text.SplitPieces(last.value, '\n');
        GoodLines(Text.Split(last.value, '\n'));
      }
    }
  }

  // ----- Recording -----

  ghost predicate GoodCov(cov: Cov) {
    && (forall i :: 0 <= i < |cov.fns| ==> Plain(cov.fns[i]))
    && (forall i :: 0 <= i < |cov.lines.order| ==> GoodKey(LineKind, cov.lines.order[i]))
    && (forall i :: 0 <= i < |cov.hits.order| ==> GoodKey(HitKind, cov.hits.order[i]))
    && (forall i :: 0 <= i < |cov.branches.order| ==> GoodKey(BranchKind, cov.branches.order[i]))
  }

  ghost predicate GoodFiles(files: Files) {
    && (forall i :: 0 <= i < |files.order| ==> Plain(files.order[i]))
    && forall file :: GoodCov(CovOf(files, file))
  }

  lemma UpdateGood(cov: Cov, e: Event)
    requires GoodCov(cov) && GoodEvent(e)
    ensures GoodCov(Update(cov, e))
  {
    hide GoodKey, Plain, Get;
  }

  lemma {:induction false} BuildGood(events: seq<Event>)
    requires GoodEvents(events)
    ensures GoodFiles(Build(Empty(), events))
    decreases |events|
  {
    hide GoodKey, Plain, Update, GoodEvent;
    if events != [] {
      hide GoodCov, CovOf;
      var before, e := Build(Empty(), events[..|events| - 1]), events[|events| - 1];
      BuildGood(events[..|events| - 1]);
      UpdateGood(CovOf(before, e.file), e);
      forall file ensures GoodCov(CovOf(Apply(before, e), file)) {
        LcovSums.ApplyCov(before, e, file);
      }
      assert Plain(e.file) by { GoodFile(e); }
    }
  }

  lemma GoodFile(e: Event)
    requires GoodEvent(e)
    ensures Plain(e.file)
  {
  }

  lemma GoodFits(cov: Cov)
    requires GoodCov(cov)
    ensures AllFit(cov)
  {
    hide KeyFits, Plain;
    forall kind: Kind, i | 0 <= i < |CountsOf(cov, kind).order| ensures KeyFits(kind, CountsOf(cov, kind).order[i]) {
      match kind
      case LineKind => assert GoodKey(LineKind, cov.lines.order[i]);
      case HitKind => assert GoodKey(HitKind, cov.hits.order[i]);
      case BranchKind => assert GoodKey(BranchKind, cov.branches.order[i]);
    }
  }

  lemma MergedGood(shards: seq<Option<string>>)
    ensures GoodFiles(Merged(shards)) && FilesFit(Merged(shards))
  {
    hide AllFit, GoodCov, GoodEvents, AllEvents, Build, CovOf, Plain;
    GoodShards(shards);
    BuildGood(AllEvents(shards));
    forall file ensures AllFit(CovOf(Merged(shards), file)) {
      GoodFits(CovOf(Merged(shards), file));
    }
  }

  // ----- Printing -----

  predicate AllPlain(raws: seq<string>) {
    forall raw :: raw in raws ==> Plain(raw)
  }

  lemma CountPlain(cov: Cov, kind: Kind, key: string)
    requires Plain(key)
    ensures Plain(PrintCount(cov, kind, key))
  {
    hide Decimals.PrintInt, Get;
    Decimals.PrintIntPlain(Get(cov.lines, key), '\n');
    Decimals.PrintIntPlain(Get(cov.hits, key), '\n');
    Decimals.PrintIntPlain(Get(cov.branches, key), '\n');
  }

  lemma {:induction false} CountsPlain(cov: Cov, kind: Kind, keys: seq<string>)
    requires forall i :: 0 <= i < |keys| ==> Plain(keys[i])
    ensures AllPlain(PrintCounts(cov, kind, keys))
    decreases |keys|
  {
    if keys != [] {
      hide PrintCount, Plain;
      CountsPlain(cov, kind, keys[..|keys| - 1]);
      CountPlain(cov, kind, keys[|keys| - 1]);
    }
  }

  lemma {:induction false} FnsPlain(fns: seq<string>)
    requires forall i :: 0 <= i < |fns| ==> Plain(fns[i])
    ensures AllPlain(FnLines(fns))
    decreases |fns|
  {
    if fns != [] {
      FnsPlain(fns[..|fns| - 1]);
    }
  }

  lemma TotalsPlain(cov: Cov, kind: Kind, found: string, hit: string)
    requires Plain(found) && Plain(hit)
    ensures AllPlain(Totals(cov, kind, found, hit))
  {
    hide Decimals.Print, Positive;
  }

  lemma GoodKeysPlain(cov: Cov, kind: Kind)
    requires GoodCov(cov)
    ensures forall i :: 0 <= i < |CountsOf(cov, kind).order| ==> Plain(CountsOf(cov, kind).order[i])
  {
    hide KeyFits, Plain;
    forall i | 0 <= i < |CountsOf(cov, kind).order| ensures Plain(CountsOf(cov, kind).order[i]) {
      match kind
      case LineKind => assert GoodKey(LineKind, cov.lines.order[i]);
      case HitKind => assert GoodKey(HitKind, cov.hits.order[i]);
      case BranchKind => assert GoodKey(BranchKind, cov.branches.order[i]);
    }
  }

  lemma PartPlain(cov: Cov, kind: Kind, found: string, hit: string)
    requires GoodCov(cov) && Plain(found) && Plain(hit)
    ensures AllPlain(PrintCounts(cov, kind, CountsOf(cov, kind).order)) && AllPlain(Totals(cov, kind, found, hit))
  {
    hide GoodCov, Plain, PrintCounts, Totals, AllPlain;
    GoodKeysPlain(cov, kind);
    CountsPlain(cov, kind, CountsOf(cov, kind).order);
    TotalsPlain(cov, kind, found, hit);
  }

  lemma AppendPlain(a: seq<string>, b: seq<string>)
    ensures AllPlain(a) && AllPlain(b) ==> AllPlain(a + b)
  {
    hide Plain;
  }

  lemma RecordPlain(file: string, cov: Cov)
    requires Plain(file) && GoodCov(cov)
    ensures AllPlain(PrintRecord(file, cov))
  {
    hide PrintCounts, Totals, AllPlain, FnLines;
    PartPlain(cov, LineKind, "LF:", "LH:");
    PartPlain(cov, HitKind, "FNF:", "FNH:");
    PartPlain(cov, BranchKind, "BRF:", "BRH:");
    AppendPlain(PrintCounts(cov, LineKind, cov.lines.order), Totals(cov, LineKind, "LF:", "LH:"));
    AppendPlain(PrintCounts(cov, HitKind, cov.hits.order), Totals(cov, HitKind, "FNF:", "FNH:"));
    AppendPlain(PrintCounts(cov, BranchKind, cov.branches.order), Totals(cov, BranchKind, "BRF:", "BRH:"));
    BranchPartPlain(cov);
    OnePlain("end_of_record");
    OnePlain("SF:" + file);
    FnsPlain(cov.fns);
    var lines := LinePart(cov) + ["end_of_record"];
    var branches := BranchPart(cov) + lines;
    var hits := HitPart(cov) + branches;
    AppendPlain(LinePart(cov), ["end_of_record"]);
    AppendPlain(BranchPart(cov), lines);
    AppendPlain(HitPart(cov), branches);
    AppendPlain(FnLines(cov.fns), hits);
    AppendPlain(["SF:" + file], FnLines(cov.fns) + hits);
  }

  lemma BranchPartPlain(cov: Cov)
    requires AllPlain(PrintCounts(cov, BranchKind, cov.branches.order)) && AllPlain(Totals(cov, BranchKind, "BRF:", "BRH:"))
    ensures AllPlain(BranchPart(cov))
  {
    hide Plain, PrintCounts, Totals;
  }

  lemma OnePlain(raw: string)
    requires Plain(raw)
    ensures AllPlain([raw])
  {
  }

  lemma {:induction false} RecordsPlain(files: Files, n: nat)
    requires GoodFiles(files) && n <= |files.order|
    ensures AllPlain(PrintRecords(files, n))
  {
    hide *;
    if n == 0 {
      NothingPlain(files);
    } else {
      var file := files.order[n - 1];
      RecordsPlain(files, n - 1);
      LastRecord(files, n);
      GoodRecord(files, n - 1);
      RecordPlain(file, CovOf(files, file));
      AppendPlain(PrintRecords(files, n - 1), PrintRecord(file, CovOf(files, file)));
    }
  }

  lemma NothingPlain(files: Files)
    ensures AllPlain(PrintRecords(files, 0))
  {
  }

  lemma GoodRecord(files: Files, i: nat)
    requires GoodFiles(files) && i < |files.order|
    ensures Plain(files.order[i]) && GoodCov(CovOf(files, files.order[i]))
  {
    hide Plain, GoodCov, CovOf;
  }

  lemma PlainByIndex(raws: seq<string>)
    requires AllPlain(raws)
    ensures PlainLines(raws)
  {
    assert forall i :: 0 <= i < |raws| ==> Plain(raws[i]);
  }

  /** A merged report is read as the records it was printed from. */
  lemma MergedRead(shards: seq<Option<string>>)
    ensures var files := Merged(shards); Events(PrintReport(files)) == CanonAll(files, |files.order|)
    ensures PlainLines(PrintRecords(Merged(shards), |Merged(shards).order|))
  {
    hide *;
    var files := Merged(shards);
    MergedGood(shards);
    RecordsPlain(files, |files.order|);
    PlainByIndex(PrintRecords(files, |files.order|));
    ReportRead(files);
  }
}
