/** When merging a merged report reproduces it, and what the printed numbers are. */
module LcovFixedPoint {
  import opened Options
  import opened JsMaps
  import opened Lcov
  import opened LcovReading
  import opened LcovRemerge
  import LcovProper
  import LcovSums
  import Text
  import Decimals

  // ----- One record -----

  /** The keys under which the function counts are read back. */
  function ReadKeys(cov: Cov, n: nat): (keys: seq<string>)
    requires n <= |cov.hits.order|
    ensures |keys| == n
    ensures forall i :: 0 <= i < n ==> keys[i] == ReadKey(cov, HitKind, i, cov.hits.order[i])
  {
    if n == 0 then [] else ReadKeys(cov, n - 1) + [ReadKey(cov, HitKind, n - 1, cov.hits.order[n - 1])]
  }

  /** The function counts come back under different keys, each with the name it had. */
  ghost predicate Stable(cov: Cov) {
    var keys := ReadKeys(cov, |cov.hits.order|);
    Unique(keys) && forall i :: 0 <= i < |keys| ==> AfterComma(keys[i]) == AfterComma(cov.hits.order[i])
  }

  lemma BumpFacts(m: Counts, key: string, count: int)
    ensures var m' := Bump(m, key, count);
      && m'.order == (if key in m.table then m.order else m.order + [key])
      && (forall k :: k in m'.table <==> k in m.table || k == key)
      && Get(m', key) == Get(m, key) + count
      && (forall k :: k != key ==> Get(m', k) == Get(m, k))
  {
  }

  lemma UniqueOneMore(keys: seq<string>, key: string)
    ensures Unique(keys + [key]) <==> Unique(keys) && key !in keys
  {
    if Unique(keys + [key]) {
      assert forall i :: 0 <= i < |keys| ==> (keys + [key])[i] == keys[i];
      assert (keys + [key])[|keys|] == key;
    }
  }

  /** `m` has the counts of the first keys of `hits` under `keys`: none is lost exactly if the keys are different. */
  ghost predicate Carries(m: Counts, keys: seq<string>, hits: Counts) {
    && |keys| <= |hits.order| && |m.order| <= |keys|
    && (forall k :: k in m.table <==> k in keys)
    && (|m.order| == |keys| <==> Unique(keys))
    && (Unique(keys) ==> m.order == keys)
    && (Unique(keys) ==> forall i :: 0 <= i < |keys| ==> Get(m, keys[i]) == Get(hits, hits.order[i]))
  }

  lemma CarriesNext(m: Counts, keys: seq<string>, hits: Counts, key: string)
    requires Carries(m, keys, hits) && |keys| < |hits.order|
    ensures Carries(Bump(m, key, Get(hits, hits.order[|keys|])), keys + [key], hits)
  {
    var count := Get(hits, hits.order[|keys|]);
    UniqueOneMore(keys, key);
    BumpFacts(m, key, count);
    hide Bump, Unique;
    if Unique(keys + [key]) {
      NotYet(m, key);
      forall i | 0 <= i < |keys| + 1 ensures Get(Bump(m, key, count), (keys + [key])[i]) == Get(hits, hits.order[i]) {
        if i < |keys| {
          assert (keys + [key])[i] == keys[i] != key;
        }
      }
    }
  }

  lemma CarriesNone(hits: Counts)
    ensures Carries(Empty(), [], hits)
  {
  }

  lemma {:induction false} RehitsCarry(cov: Cov, n: nat)
    requires n <= |cov.hits.order|
    ensures Carries(Rehits(cov, n), ReadKeys(cov, n), cov.hits)
  {
    hide Carries, Bump, ReadKey, Get;
    if n == 0 {
      CarriesNone(cov.hits);
    } else {
      RehitsCarry(cov, n - 1);
      CarriesNext(Rehits(cov, n - 1), ReadKeys(cov, n - 1), cov.hits, ReadKey(cov, HitKind, n - 1, cov.hits.order[n - 1]));
    }
  }

  lemma NotYet(m: Counts, key: string)
    requires key !in m.table
    ensures Get(m, key) == 0
  {
  }

  lemma {:induction false} PrintCountsAt(cov: Cov, kind: Kind, keys: seq<string>, i: nat)
    requires i < |keys|
    ensures PrintCounts(cov, kind, keys)[i] == PrintCount(cov, kind, keys[i])
    decreases |keys|
  {
    hide PrintCount;
    if i < |keys| - 1 {
      PrintCountsAt(cov, kind, keys[..|keys| - 1], i);
    }
  }

  /** Keys with the same function counts give the same total of hits. */
  lemma {:induction false} SameHits(cov: Cov, cov': Cov, keys: seq<string>, keys': seq<string>)
    requires |keys| == |keys'| && forall i :: 0 <= i < |keys| ==> Get(cov.hits, keys[i]) == Get(cov'.hits, keys'[i])
    ensures Positive(cov, HitKind, keys) == Positive(cov', HitKind, keys')
    decreases |keys|
  {
    if keys != [] {
      hide Get;
      SameHits(cov, cov', keys[..|keys| - 1], keys'[..|keys| - 1]);
    }
  }

  lemma HitLineSame(m: Counts, m': Counts, key: string, key': string)
    requires Get(m, key) == Get(m', key')
    ensures HitLine(m, key) == HitLine(m', key') <==> AfterComma(key) == AfterComma(key')
  {
    hide Get, AfterComma, Decimals.PrintInt;
    var head := "FNDA:" + (Decimals.PrintInt(Get(m, key)) + ",");
    assert HitLine(m, key) == head + AfterComma(key);
    assert HitLine(m', key') == head + AfterComma(key');
    assert (head + AfterComma(key))[|head|..] == AfterComma(key);
    assert (head + AfterComma(key'))[|head|..] == AfterComma(key');
  }

  lemma HitPartParts(cov: Cov)
    ensures var keys, part := cov.hits.order, HitPart(cov);
      && |part| == |keys| + 2 && part[..|keys|] == PrintCounts(cov, HitKind, keys)
      && part[|keys|..] == ["FNF:" + Decimals.Print(|keys|), "FNH:" + Decimals.Print(Positive(cov, HitKind, keys))]
  {
    hide Decimals.Print, Positive, PrintCounts;
  }

  /** The lines of the function counts come back unchanged exactly if the record is stable; otherwise some may be lost. */
  lemma HitPartReread(cov: Cov)
    ensures |HitPart(Reread(cov))| <= |HitPart(cov)|
    ensures HitPart(Reread(cov)) == HitPart(cov) <==> Stable(cov)
  {
    hide HitPart, Rehits, ReadKeys, PrintCounts, Positive, Unique, AfterComma, Get, HitLine;
    var n, back := |cov.hits.order|, Reread(cov);
    HitPartParts(cov);
    HitPartParts(back);
    RehitsCarry(cov, n);
    if |back.hits.order| == n {
      var keys := ReadKeys(cov, n);
      SameHits(back, cov, keys, cov.hits.order);
      forall i | 0 <= i < n
        ensures PrintCounts(back, HitKind, keys)[i] == PrintCounts(cov, HitKind, cov.hits.order)[i]
          <==> AfterComma(keys[i]) == AfterComma(cov.hits.order[i])
      {
        PrintCountsAt(back, HitKind, keys, i);
        PrintCountsAt(cov, HitKind, cov.hits.order, i);
        HitLineSame(back.hits, cov.hits, keys[i], cov.hits.order[i]);
      }
      SamePart(HitPart(back), HitPart(cov), n);
    }
  }

  lemma SamePart(a: seq<string>, b: seq<string>, n: nat)
    requires |a| == |b| && n <= |a| && a[n..] == b[n..]
    ensures a == b <==> forall i :: 0 <= i < n ==> a[..n][i] == b[..n][i]
  {
    if forall i :: 0 <= i < n ==> a[..n][i] == b[..n][i] {
      assert a[..n] == b[..n];
      assert a == a[..n] + a[n..] && b == b[..n] + b[n..];
    }
  }

  lemma {:induction false} OthersReread(cov: Cov, kind: Kind, keys: seq<string>)
    requires !kind.HitKind?
    ensures PrintCounts(Reread(cov), kind, keys) == PrintCounts(cov, kind, keys)
    ensures Positive(Reread(cov), kind, keys) == Positive(cov, kind, keys)
    decreases |keys|
  {
    if keys != [] {
      hide Rehits, Get, Decimals.PrintInt;
      OthersReread(cov, kind, keys[..|keys| - 1]);
    }
  }

  lemma RecordReread(file: string, cov: Cov)
    ensures |PrintRecord(file, Reread(cov))| <= |PrintRecord(file, cov)|
    ensures PrintRecord(file, Reread(cov)) == PrintRecord(file, cov) <==> Stable(cov)
  {
    hide HitPart, Rehits, PrintCounts, Positive, FnLines, Stable, Decimals.Print;
    var back := Reread(cov);
    HitPartReread(cov);
    OthersReread(cov, BranchKind, cov.branches.order);
    OthersReread(cov, LineKind, cov.lines.order);
    assert BranchPart(back) == BranchPart(cov) && LinePart(back) == LinePart(cov);
    hide BranchPart, LinePart;
    var tail := BranchPart(cov) + (LinePart(cov) + ["end_of_record"]);
    Text.SameParts(HitPart(back), tail, HitPart(cov), tail);
    Text.SameParts(FnLines(cov.fns), HitPart(back) + tail, FnLines(cov.fns), HitPart(cov) + tail);
    Text.SameParts(["SF:" + file], FnLines(cov.fns) + (HitPart(back) + tail), ["SF:" + file], FnLines(cov.fns) + (HitPart(cov) + tail));
  }

  // ----- The whole report -----

  ghost predicate AllStable(files: Files, n: nat)
    requires n <= |files.order|
  {
    forall i :: 0 <= i < n ==> Stable(CovOf(files, files.order[i]))
  }

  /** `back` has the files of `files`, each read back. */
  ghost predicate IsReread(back: Files, files: Files) {
    back.order == files.order
    && forall i :: 0 <= i < |files.order| ==> CovOf(back, files.order[i]) == Reread(CovOf(files, files.order[i]))
  }

  lemma {:induction false} RecordsReread(back: Files, files: Files, n: nat)
    requires IsReread(back, files) && n <= |files.order|
    ensures |PrintRecords(back, n)| <= |PrintRecords(files, n)|
    ensures PrintRecords(back, n) == PrintRecords(files, n) <==> AllStable(files, n)
  {
    hide *;
    assert back.order == files.order by { SameOrder(back, files); }
    if n == 0 {
      NoneStable(back, files);
    } else {
      var file := files.order[n - 1];
      RecordsReread(back, files, n - 1);
      LastRecord(back, n);
      LastRecord(files, n);
      RecordReread(file, CovOf(files, file));
      LastStable(back, files, n);
      Text.SameParts(PrintRecords(back, n - 1), PrintRecord(file, CovOf(back, file)),
                     PrintRecords(files, n - 1), PrintRecord(file, CovOf(files, file)));
    }
  }

  lemma SameOrder(back: Files, files: Files)
    requires IsReread(back, files)
    ensures back.order == files.order
  {
  }

  lemma NoneStable(back: Files, files: Files)
    ensures PrintRecords(back, 0) == [] && PrintRecords(files, 0) == [] && AllStable(files, 0)
  {
  }

  lemma LastStable(back: Files, files: Files, n: nat)
    requires IsReread(back, files) && 0 < n <= |files.order|
    ensures CovOf(back, files.order[n - 1]) == Reread(CovOf(files, files.order[n - 1]))
    ensures AllStable(files, n) <==> AllStable(files, n - 1) && Stable(CovOf(files, files.order[n - 1]))
  {
    hide Stable, CovOf, Reread;
  }

  lemma NonEmptyRecords(files: Files, n: nat)
    requires n <= |files.order|
    ensures PrintRecords(files, n) == [] <==> n == 0
  {
    if n > 0 {
      LastRecord(files, n);
      hide PrintRecords;
    }
  }

  lemma ReportsDiffer(raws: seq<string>, raws': seq<string>)
    requires PlainLines(raws) && PlainLines(raws') && (raws == [] <==> raws' == [])
    ensures Text.Join(raws, "\n") + "\n" == Text.Join(raws', "\n") + "\n" <==> raws == raws'
  {
    hide Text.Split, Text.Join, PlainLines;
    ReportLines(raws);
    ReportLines(raws');
    if Text.Join(raws, "\n") + "\n" == Text.Join(raws', "\n") + "\n" && raws != [] {
      assert raws == (raws + [""])[..|raws + [""]| - 1];
      assert raws' == (raws' + [""])[..|raws' + [""]| - 1];
    }
  }

  lemma MergedIsReread(shards: seq<Option<string>>)
    ensures IsReread(Merged([Some(PrintReport(Merged(shards)))]), Merged(shards))
  {
    hide Merged, PrintReport, Reread, CovOf, SoundFiles;
    var files := Merged(shards);
    Remerged(shards);
    MergedSound(shards);
    RereadOrder(files, |files.order|);
    assert files.order[..|files.order|] == files.order;
    forall i | 0 <= i < |files.order| ensures CovOf(RereadFiles(files, |files.order|), files.order[i]) == Reread(CovOf(files, files.order[i])) {
      RereadCov(files, |files.order|, files.order[i]);
    }
  }

  /**
    Merging a merged report reproduces it exactly if and only if every record is stable: each function count is
    read back under a key of its own whose name is the one it was printed with.
   */
  lemma RemergeIsFixed(shards: seq<Option<string>>)
    requires HasReport(shards)
    ensures Merge([Merge(shards)]) == Merge(shards) <==> AllStable(Merged(shards), |Merged(shards).order|)
  {
    hide *;
    var files := Merged(shards);
    var text := PrintReport(files);
    var back := Merged([Some(text)]);
    assert Merge(shards) == Some(text) && Merge([Some(text)]) == Some(PrintReport(back)) by { MergeBoth(shards); }
    MergedIsReread(shards);
    SameOrder(back, files);
    LcovProper.MergedRead(shards);
    LcovProper.MergedRead([Some(text)]);
    NonEmptyRecords(files, |files.order|);
    NonEmptyRecords(back, |files.order|);
    ReportsDiffer(PrintRecords(back, |files.order|), PrintRecords(files, |files.order|));
    assert PrintReport(back) == PrintReport(files) <==> PrintRecords(back, |files.order|) == PrintRecords(files, |files.order|) by {
      ReportIs(back);
      ReportIs(files);
    }
    RecordsReread(back, files, |files.order|);
  }

  lemma MergeBoth(shards: seq<Option<string>>)
    requires HasReport(shards)
    ensures Merge(shards) == Some(PrintReport(Merged(shards)))
    ensures var text := PrintReport(Merged(shards)); Merge([Some(text)]) == Some(PrintReport(Merged([Some(text)])))
  {
    hide Merged, PrintReport;
    OneShard(PrintReport(Merged(shards)));
  }

  lemma ReportIs(files: Files)
    ensures PrintReport(files) == Text.Join(PrintRecords(files, |files.order|), "\n") + "\n"
  {
    hide PrintRecords, Text.Join;
  }

  // ----- Reports in step -----

  /** A file's part ends with as many counts as functions, and a count comes after its function. */
  predicate LineInStep(r: Reader, raw: string) {
    && (Text.StartsWith(raw, "SF:") ==> r.index == |r.fns|)
    && (r.cur.Some? && Text.StartsWith(raw, "FNDA:") ==> r.index < |r.fns|)
  }

  ghost predicate LinesInStep(raws: seq<string>) {
    && (forall n :: 0 <= n < |raws| ==> LineInStep(ReaderAfter(Start(), raws[..n]), raws[n]))
    && ReaderAfter(Start(), raws).index == |ReaderAfter(Start(), raws).fns|
  }

  ghost predicate InStep(shards: seq<Option<string>>) {
    forall i :: 0 <= i < |shards| && shards[i].Some? ==> LinesInStep(Text.Split(shards[i].value, '\n'))
  }

  ghost predicate Aligned(cov: Cov) {
    cov.fns == cov.hits.order
  }

  function AddAll(base: seq<string>, keys: seq<string>): seq<string>
    decreases |keys|
  {
    if keys == [] then base else AddFn(AddAll(base, keys[..|keys| - 1]), keys[|keys| - 1])
  }

  /** Since its part began with the functions `base`, the record got the functions read, and counts for the first of them. */
  ghost predicate Between(cov: Cov, r: Reader, base: seq<string>) {
    && r.index <= |r.fns|
    && cov.fns == AddAll(base, r.fns)
    && cov.hits.order == AddAll(base, r.fns[..r.index])
  }

  ghost predicate InBlock(files: Files, r: Reader, file: string) {
    if r.cur == Some(file) then exists base :: Between(CovOf(files, file), r, base) else Aligned(CovOf(files, file))
  }

  lemma BetweenFn(cov: Cov, r: Reader, base: seq<string>, key: string)
    requires Between(cov, r, base)
    ensures Between(cov.(fns := AddFn(cov.fns, key)), r.(fns := r.fns + [key]), base)
  {
    hide AddFn;
    assert (r.fns + [key])[..|r.fns|] == r.fns;
    assert (r.fns + [key])[..r.index] == r.fns[..r.index];
  }

  lemma BetweenHit(cov: Cov, r: Reader, base: seq<string>, count: int)
    requires Between(cov, r, base) && r.index < |r.fns| && cov.hits.Valid()
    ensures Between(cov.(hits := Bump(cov.hits, r.fns[r.index], count)), r.(index := r.index + 1), base)
  {
    assert r.fns[..r.index + 1][..r.index] == r.fns[..r.index];
  }

  lemma BetweenWhole(cov: Cov, r: Reader, base: seq<string>)
    requires Between(cov, r, base) && r.index == |r.fns|
    ensures Aligned(cov)
  {
    hide AddAll;
    assert r.fns[..|r.fns|] == r.fns;
  }

  lemma BetweenNew(cov: Cov, file: string)
    requires Aligned(cov)
    ensures Between(cov, Reader(Some(file), [], 0), cov.fns)
  {
  }

  /** The records after one more line. */
  function AfterLine(files: Files, r: Reader, raw: string): Files {
    if EventOf(r, raw) == None then files else Apply(files, EventOf(r, raw).value)
  }

  lemma LineKeepsStep(files: Files, r: Reader, raw: string, file: string)
    requires InBlock(files, r, file) && LineInStep(r, raw) && LcovSums.TidyCov(CovOf(files, file))
    requires r.cur == None ==> r.index == 0 && r.fns == []
    ensures InBlock(AfterLine(files, r, raw), NextReader(r, raw), file)
  {
    hide Text.StartsWith, Text.Split, Decimals.ParseInt, CovOf, Apply, AddFn, Bump, AddBranch, BranchKey, Between, Aligned, JsMap.Valid;
    var cov := CovOf(files, file);
    if EventOf(r, raw).Some? {
      LcovSums.ApplyCov(files, EventOf(r, raw).value, file);
    }
    if r.cur == Some(file) {
      var base :| Between(cov, r, base);
      if Text.StartsWith(raw, "SF:") {
        BetweenWhole(cov, r, base);
        BetweenNew(cov, file);
      } else if Text.StartsWith(raw, "DA:") {
        SameCov(cov, AddCount(cov, LineKind, LineEvent(file, raw[3..]).key, LineEvent(file, raw[3..]).taken), r, base);
      } else if Text.StartsWith(raw, "FN:") {
        BetweenFn(cov, r, base, raw[3..]);
      } else if Text.StartsWith(raw, "FNDA:") {
        BetweenHit(cov, r, base, Amount(HitEvent(r, file, raw[5..]).taken));
      } else if Text.StartsWith(raw, "BRDA:") {
        var e := BranchEvent(file, raw[5..]);
        SameBranch(cov, e.key, e.taken);
        SameCov(cov, AddBranch(cov, e.key, e.taken), r, base);
      }
    } else {
      BetweenNew(cov, file);
    }
  }

  lemma SameBranch(cov: Cov, key: string, taken: Option<int>)
    ensures AddBranch(cov, key, taken).fns == cov.fns && AddBranch(cov, key, taken).hits == cov.hits
  {
  }

  lemma SameCov(cov: Cov, cov': Cov, r: Reader, base: seq<string>)
    requires Between(cov, r, base) && cov'.fns == cov.fns && cov'.hits == cov.hits
    ensures Between(cov', r, base)
  {
  }

  ghost predicate AllInBlock(files: Files, r: Reader) {
    forall file :: InBlock(files, r, file)
  }

  lemma IdleReader(r: Reader, raw: string)
    requires r.cur == None ==> r.index == 0 && r.fns == []
    ensures var r' := NextReader(r, raw); r'.cur == None ==> r'.index == 0 && r'.fns == []
  {
    hide Text.StartsWith;
  }

  lemma {:induction false} IdleAfter(raws: seq<string>)
    ensures var r := ReaderAfter(Start(), raws); r.cur == None ==> r.index == 0 && r.fns == []
    decreases |raws|
  {
    if raws != [] {
      hide NextReader;
      IdleAfter(raws[..|raws| - 1]);
      IdleReader(ReaderAfter(Start(), raws[..|raws| - 1]), raws[|raws| - 1]);
    }
  }

  lemma BuildTidyCov(events: seq<Event>, file: string)
    ensures LcovSums.TidyCov(CovOf(Build(Empty(), events), file))
  {
    hide LcovSums.TidyCov, Build;
    LcovSums.BuildTidy(events);
    LcovSums.EmptyTidy();
  }

  /** While a report in step is read, every record but that of the current file has a count for each function, in order. */
  lemma {:induction false} ReportKeepsStep(prior: seq<Event>, raws: seq<string>)
    requires forall n :: 0 <= n < |raws| ==> LineInStep(ReaderAfter(Start(), raws[..n]), raws[n])
    requires AllInBlock(Build(Empty(), prior), Start())
    ensures AllInBlock(Build(Empty(), prior + EventsFrom(Start(), raws)), ReaderAfter(Start(), raws))
    decreases |raws|
  {
    hide *;
    if raws == [] {
      assert EventsFrom(Start(), []) == [] && ReaderAfter(Start(), []) == Start() by { NothingRead(); }
      assert prior + [] == prior;
    } else {
      var n := |raws| - 1;
      var before, raw := raws[..n], raws[n];
      forall m | 0 <= m < n ensures LineInStep(ReaderAfter(Start(), before[..m]), before[m]) {
        assert before[..m] == raws[..m];
        assert raws[m] == before[m];
      }
      ReportKeepsStep(prior, before);
      var r, events := ReaderAfter(Start(), before), prior + EventsFrom(Start(), before);
      assert LineInStep(r, raw);
      assert before + [raw] == raws;
      OneMoreLine(Start(), before, raw);
      assert events + EventList(EventOf(r, raw)) == prior + EventsFrom(Start(), raws);
      BuildOne(Empty(), events, EventOf(r, raw));
      IsAfterLine(Build(Empty(), events), r, raw);
      IdleAfter(before);
      AllKeepStep(events, r, raw);
    }
  }

  lemma NothingRead()
    ensures EventsFrom(Start(), []) == [] && ReaderAfter(Start(), []) == Start()
  {
  }

  lemma IsAfterLine(files: Files, r: Reader, raw: string)
    ensures AfterLine(files, r, raw) == if EventOf(r, raw) == None then files else Apply(files, EventOf(r, raw).value)
  {
  }

  lemma AllKeepStep(events: seq<Event>, r: Reader, raw: string)
    requires AllInBlock(Build(Empty(), events), r) && LineInStep(r, raw)
    requires r.cur == None ==> r.index == 0 && r.fns == []
    ensures AllInBlock(AfterLine(Build(Empty(), events), r, raw), NextReader(r, raw))
  {
    hide InBlock, Build, LineInStep, AfterLine, NextReader, LcovSums.TidyCov;
    forall file ensures InBlock(AfterLine(Build(Empty(), events), r, raw), NextReader(r, raw), file) {
      BuildTidyCov(events, file);
      LineKeepsStep(Build(Empty(), events), r, raw, file);
    }
  }

  ghost predicate AllAligned(files: Files) {
    forall file :: Aligned(CovOf(files, file))
  }

  lemma BlockEnds(files: Files, r: Reader)
    requires AllInBlock(files, r) && r.index == |r.fns|
    ensures AllAligned(files)
  {
    hide Between, Aligned, CovOf;
    forall file ensures Aligned(CovOf(files, file)) {
      assert InBlock(files, r, file);
      if r.cur == Some(file) {
        var base :| Between(CovOf(files, file), r, base);
        BetweenWhole(CovOf(files, file), r, base);
      }
    }
  }

  lemma BlockStarts(files: Files)
    requires AllAligned(files)
    ensures AllInBlock(files, Start())
  {
    hide Aligned, CovOf;
  }

  /** After reports in step every record has, for each function, a count in the same place. */
  lemma {:induction false} InStepAligns(shards: seq<Option<string>>)
    requires InStep(shards)
    ensures AllAligned(Merged(shards))
    decreases |shards|
  {
    if shards != [] {
      hide AllAligned, Build, EventsFrom, LinesInStep, Text.Split, AllInBlock;
      var before, last := shards[..|shards| - 1], shards[|shards| - 1];
      InStepAligns(before);
      if last.Some? {
        var raws := Text.Split(last.value, '\n');
        BlockStarts(Merged(before));
        assert LinesInStep(raws);
        LinesStep(raws);
        ReportKeepsStep(AllEvents(before), raws);
        BlockEnds(Merged(shards), ReaderAfter(Start(), raws));
      } else {
        assert AllEvents(before) + [] == AllEvents(before);
      }
    }
  }

  lemma LinesStep(raws: seq<string>)
    requires LinesInStep(raws)
    ensures forall n :: 0 <= n < |raws| ==> LineInStep(ReaderAfter(Start(), raws[..n]), raws[n])
    ensures ReaderAfter(Start(), raws).index == |ReaderAfter(Start(), raws).fns|
  {
    hide LineInStep, ReaderAfter;
  }

  lemma AlignedIsStable(cov: Cov)
    requires Aligned(cov) && LcovSums.TidyCov(cov)
    ensures Stable(cov) && Reread(cov) == cov
  {
    hide AfterComma, Rehits, Get;
    var n := |cov.hits.order|;
    assert ReadKeys(cov, n) == cov.hits.order;
    RehitsCarry(cov, n);
    SameCounts(Rehits(cov, n), cov.hits);
  }

  lemma SameCounts(m: Counts, hits: Counts)
    requires hits.Valid() && Carries(m, hits.order, hits)
    ensures m == hits
  {
    assert m.table.Keys == hits.table.Keys;
    forall k | k in hits.table ensures m.table[k] == hits.table[k] {
      var i :| 0 <= i < |hits.order| && hits.order[i] == k;
      assert Get(m, hits.order[i]) == Get(hits, hits.order[i]);
    }
    assert m.table == hits.table;
  }

  lemma MergedTidyCov(shards: seq<Option<string>>, file: string)
    ensures LcovSums.TidyCov(CovOf(Merged(shards), file))
  {
    hide LcovSums.TidyCov, Build;
    BuildTidyCov(AllEvents(shards), file);
  }

  lemma AlignedAt(files: Files, file: string)
    requires AllAligned(files)
    ensures Aligned(CovOf(files, file))
  {
  }

  /**
    Merging the merged report of shards in step reproduces it, character by character.
   */
  lemma RemergeOfReportsInStep(shards: seq<Option<string>>)
    requires HasReport(shards) && InStep(shards)
    ensures Merge([Merge(shards)]) == Merge(shards)
  {
    hide Merge, Merged, InStep, AllAligned, Stable, HasReport, CovOf, Reread, Aligned, LcovSums.TidyCov;
    var files := Merged(shards);
    InStepAligns(shards);
    forall i | 0 <= i < |files.order| ensures Stable(CovOf(files, files.order[i])) {
      AlignedAt(files, files.order[i]);
      MergedTidyCov(shards, files.order[i]);
      AlignedIsStable(CovOf(files, files.order[i]));
    }
    RemergeIsFixed(shards);
  }

  // ----- The printed numbers -----

  /**
    A reader of the merged report finds, for every line and branch, the sum of what the shards say; for every
    function too if the shards are in step.
   */
  lemma PrintedCountsAreSums(shards: seq<Option<string>>, kind: Kind, file: string, key: string)
    requires kind.HitKind? ==> InStep(shards)
    ensures var printed := Events(PrintReport(Merged(shards)));
      && LcovSums.Sum(printed, LcovSums.AmountFor(kind, file, key)) == LcovSums.ShardSum(shards, LcovSums.AmountFor(kind, file, key))
      && (LcovSums.Sum(printed, LcovSums.TimesFor(kind, file, key)) > 0
          <==> LcovSums.ShardSum(shards, LcovSums.TimesFor(kind, file, key)) > 0)
      && (LcovSums.Sum(printed, LcovSums.NumbersFor(BranchKind, file, key)) > 0
          <==> LcovSums.ShardSum(shards, LcovSums.NumbersFor(BranchKind, file, key)) > 0)
  {
    hide Merged, PrintReport, Events, Build, Get, LcovSums.Sum, LcovSums.ShardSum, Reread, CovOf, InStep, LcovSums.TidyCov, AllAligned, Aligned;
    var files := Merged(shards);
    var text := PrintReport(files);
    var back := Merged([Some(text)]);
    LcovSums.MergeIsSum(shards, kind, file, key);
    BackIsReread(shards, file);
    OneShard(text);
    LcovSums.BuildSums(Events(text), kind, file, key);
    if kind.HitKind? {
      InStepAligns(shards);
      AlignedAt(files, file);
      MergedTidyCov(shards, file);
      AlignedIsStable(CovOf(files, file));
    } else {
      RereadKeeps(CovOf(files, file), kind);
    }
    RereadKeeps(CovOf(files, file), BranchKind);
    TidyKeys(shards, kind, file, key);
  }

  lemma BackIsReread(shards: seq<Option<string>>, file: string)
    ensures CovOf(Merged([Some(PrintReport(Merged(shards)))]), file) == Reread(CovOf(Merged(shards), file))
  {
    hide Merged, PrintReport, Reread;
    var files := Merged(shards);
    var back := Merged([Some(PrintReport(files))]);
    MergedIsReread(shards);
    if file in files.order {
      var i :| 0 <= i < |files.order| && files.order[i] == file;
      assert CovOf(back, files.order[i]) == Reread(CovOf(files, files.order[i]));
    } else {
      MergedKeys(shards, file);
      MergedKeys([Some(PrintReport(files))], file);
      EmptyReread();
    }
  }

  lemma EmptyReread()
    ensures Reread(EmptyCov()) == EmptyCov()
  {
  }

  lemma MergedKeys(shards: seq<Option<string>>, file: string)
    ensures file in Merged(shards).table <==> file in Merged(shards).order
  {
    hide LcovSums.TidyCov, Build;
    LcovSums.BuildTidy(AllEvents(shards));
  }

  lemma RereadKeeps(cov: Cov, kind: Kind)
    ensures Reread(cov).numeric == cov.numeric
    ensures !kind.HitKind? ==> CountsOf(Reread(cov), kind) == CountsOf(cov, kind)
  {
  }

  lemma TidyKeys(shards: seq<Option<string>>, kind: Kind, file: string, key: string)
    ensures var m := CountsOf(CovOf(Merged(shards), file), kind); key in m.table <==> key in m.order
  {
    hide Merged, CovOf;
    MergedTidyCov(shards, file);
  }
}
