/** What merging a merged report gives, and when it gives the same report. */
module LcovRemerge {
  import opened Options
  import opened JsMaps
  import opened Lcov
  import opened LcovReading
  import LcovProper
  import LcovSums

  // ----- Reading one record into an empty one -----

  function UpdateAll(cov: Cov, events: seq<Event>): Cov
    decreases |events|
  {
    if events == [] then cov else Update(UpdateAll(cov, events[..|events| - 1]), events[|events| - 1])
  }

  lemma {:induction false} UpdateAppend(cov: Cov, a: seq<Event>, b: seq<Event>)
    ensures UpdateAll(cov, a + b) == UpdateAll(UpdateAll(cov, a), b)
    decreases |b|
  {
    if b == [] {
      assert a + b == a;
    } else {
      hide Update;
      assert (a + b)[..|a + b| - 1] == a + b[..|b| - 1];
      UpdateAppend(cov, a, b[..|b| - 1]);
    }
  }

  ghost predicate AllOf(file: string, events: seq<Event>) {
    forall i :: 0 <= i < |events| ==> events[i].file == file
  }

  /** Events of one file change its record only. */
  lemma {:induction false} BuildOneFile(files: Files, file: string, events: seq<Event>)
    requires events != [] && AllOf(file, events)
    ensures Build(files, events) == files.Set(file, UpdateAll(CovOf(files, file), events))
    decreases |events|
  {
    hide Update;
    var before, e := events[..|events| - 1], events[|events| - 1];
    if before == [] {
      assert Build(files, before) == files;
      assert UpdateAll(CovOf(files, file), before) == CovOf(files, file);
    } else {
      hide CovOf;
      var cov := UpdateAll(CovOf(files, file), before);
      BuildOneFile(files, file, before);
      SetAgain(files, file, cov, Update(cov, e));
    }
  }

  lemma SetAgain(files: Files, file: string, a: Cov, b: Cov)
    ensures files.Set(file, a).Set(file, b) == files.Set(file, b)
    ensures CovOf(files.Set(file, a), file) == a
  {
  }

  lemma UpdateOneMore(cov: Cov, events: seq<Event>, e: Event)
    ensures UpdateAll(cov, events + [e]) == Update(UpdateAll(cov, events), e)
  {
    hide Update;
    assert (events + [e])[..|events|] == events;
  }

  lemma {:induction false} FnsRebuilt(cov: Cov, file: string, fns: seq<string>)
    requires cov.fns == [] && Unique(fns)
    ensures UpdateAll(cov, FnEvents(file, fns)) == cov.(fns := fns)
    decreases |fns|
  {
    if fns != [] {
      hide UpdateAll;
      var n := |fns| - 1;
      FnsRebuilt(cov, file, fns[..n]);
      UpdateOneMore(cov, FnEvents(file, fns[..n]), Fn(file, fns[n]));
      assert fns[n] !in fns[..n];
      assert fns[..n] + [fns[n]] == fns;
    } else {
      assert UpdateAll(cov, []) == cov;
    }
  }

  /** `m` has the first `n` keys of `src` with their counts. */
  ghost predicate Copies(m: Counts, src: Counts, n: nat) {
    && n <= |src.order|
    && m.order == src.order[..n]
    && (forall k :: k in m.table <==> k in src.order[..n])
    && (forall k :: k in m.table && k in src.table ==> m.table[k] == src.table[k])
  }

  lemma CopyNext(m: Counts, src: Counts, n: nat)
    requires Copies(m, src, n) && src.Valid() && n < |src.order|
    ensures src.order[n] !in m.table && Get(m, src.order[n]) == 0
    ensures Copies(m.Set(src.order[n], Get(src, src.order[n])), src, n + 1)
  {
    assert src.order[..n + 1] == src.order[..n] + [src.order[n]];
    assert src.order[n] !in src.order[..n];
  }

  lemma CopyWhole(m: Counts, src: Counts)
    requires Copies(m, src, |src.order|) && src.Valid()
    ensures m == src
  {
    assert src.order[..|src.order|] == src.order;
    assert m.table == src.table;
  }

  lemma LastEvent(file: string, cov: Cov, kind: Kind, n: nat)
    requires n < |CountsOf(cov, kind).order|
    ensures var keys := CountsOf(cov, kind).order;
      CountEvents(file, cov, kind, keys[..n + 1])
      == CountEvents(file, cov, kind, keys[..n]) + [Count(kind, file, ReadKey(cov, kind, n, keys[n]), Taken(cov, kind, keys[n]))]
  {
    hide ReadKey, Taken;
    var keys := CountsOf(cov, kind).order;
    assert keys[..n + 1][..n] == keys[..n];
  }

  lemma NothingRebuilt(start: Cov, file: string, cov: Cov, kind: Kind)
    ensures UpdateAll(start, CountEvents(file, cov, kind, CountsOf(cov, kind).order[..0])) == start
    ensures Copies(Empty(), CountsOf(cov, kind), 0)
  {
  }

  lemma LineStep(got: Cov, file: string, cov: Cov, i: nat, key: string)
    requires Get(got.lines, key) == 0
    ensures Update(got, Count(LineKind, file, ReadKey(cov, LineKind, i, key), Taken(cov, LineKind, key)))
         == got.(lines := got.lines.Set(key, Get(cov.lines, key)))
  {
    hide JsMap.Set, Get;
  }

  lemma {:induction false} LinesRebuilt(start: Cov, file: string, cov: Cov, n: nat)
    requires start.lines == Empty() && cov.lines.Valid() && n <= |cov.lines.order|
    ensures var got := UpdateAll(start, CountEvents(file, cov, LineKind, cov.lines.order[..n]));
      got == start.(lines := got.lines) && Copies(got.lines, cov.lines, n)
  {
    hide *;
    assert CountsOf(cov, LineKind) == cov.lines by { KindOf(cov); }
    if n == 0 {
      NothingRebuilt(start, file, cov, LineKind);
    } else {
      var key := cov.lines.order[n - 1];
      LinesRebuilt(start, file, cov, n - 1);
      LastEvent(file, cov, LineKind, n - 1);
      var before := CountEvents(file, cov, LineKind, cov.lines.order[..n - 1]);
      var got := UpdateAll(start, before);
      UpdateOneMore(start, before, Count(LineKind, file, ReadKey(cov, LineKind, n - 1, key), Taken(cov, LineKind, key)));
      CopyNext(got.lines, cov.lines, n - 1);
      LineStep(got, file, cov, n - 1, key);
    }
  }

  lemma KindOf(cov: Cov)
    ensures CountsOf(cov, LineKind) == cov.lines && CountsOf(cov, HitKind) == cov.hits && CountsOf(cov, BranchKind) == cov.branches
  {
  }

  lemma BranchStep(got: Cov, file: string, cov: Cov, i: nat, key: string)
    requires key !in got.branches.table && key !in got.numeric
    requires key !in cov.numeric ==> Get(cov.branches, key) == 0
    ensures Update(got, Count(BranchKind, file, ReadKey(cov, BranchKind, i, key), Taken(cov, BranchKind, key)))
         == got.(branches := got.branches.Set(key, Get(cov.branches, key)),
                 numeric := got.numeric + if key in cov.numeric then {key} else {})
  {
    hide JsMap.Set;
  }

  lemma {:induction false} BranchesRebuilt(start: Cov, file: string, cov: Cov, n: nat)
    requires start.branches == Empty() && start.numeric == {} && cov.branches.Valid() && n <= |cov.branches.order|
    requires forall key :: key in cov.branches.order && key !in cov.numeric ==> Get(cov.branches, key) == 0
    ensures var got := UpdateAll(start, CountEvents(file, cov, BranchKind, cov.branches.order[..n]));
      && got == start.(branches := got.branches, numeric := got.numeric) && Copies(got.branches, cov.branches, n)
      && forall k :: k in got.numeric <==> k in cov.numeric && k in cov.branches.order[..n]
  {
    hide *;
    assert CountsOf(cov, BranchKind) == cov.branches by { KindOf(cov); }
    if n == 0 {
      NothingRebuilt(start, file, cov, BranchKind);
    } else {
      var key := cov.branches.order[n - 1];
      BranchesRebuilt(start, file, cov, n - 1);
      LastEvent(file, cov, BranchKind, n - 1);
      var before := CountEvents(file, cov, BranchKind, cov.branches.order[..n - 1]);
      var got := UpdateAll(start, before);
      UpdateOneMore(start, before, Count(BranchKind, file, ReadKey(cov, BranchKind, n - 1, key), Taken(cov, BranchKind, key)));
      CopyNext(got.branches, cov.branches, n - 1);
      KeysBefore(cov.branches, n - 1);
      BranchStep(got, file, cov, n - 1, key);
    }
  }

  lemma KeysBefore(m: Counts, n: nat)
    requires m.Valid() && n < |m.order|
    ensures m.order[..n + 1] == m.order[..n] + [m.order[n]] && m.order[n] !in m.order[..n]
  {
  }

  /** The function counts that come back: each under the key it is read with. */
  function Rehits(cov: Cov, n: nat): Counts
    requires n <= |cov.hits.order|
  {
    if n == 0 then Empty()
    else
      var key := cov.hits.order[n - 1];
      Bump(Rehits(cov, n - 1), ReadKey(cov, HitKind, n - 1, key), Get(cov.hits, key))
  }

  lemma RehitsStep(got: Cov, file: string, cov: Cov, n: nat)
    requires n < |cov.hits.order| && got.hits == Rehits(cov, n)
    ensures var key := cov.hits.order[n];
      Update(got, Count(HitKind, file, ReadKey(cov, HitKind, n, key), Taken(cov, HitKind, key))) == got.(hits := Rehits(cov, n + 1))
  {
    hide JsMap.Set, Get, ReadKey;
  }

  lemma NoRehits(cov: Cov)
    ensures Rehits(cov, 0) == Empty()
  {
  }

  lemma {:induction false} HitsRebuilt(start: Cov, file: string, cov: Cov, n: nat)
    requires start.hits == Empty() && n <= |cov.hits.order|
    ensures UpdateAll(start, CountEvents(file, cov, HitKind, cov.hits.order[..n])) == start.(hits := Rehits(cov, n))
  {
    hide *;
    assert CountsOf(cov, HitKind) == cov.hits by { KindOf(cov); }
    if n == 0 {
      NothingRebuilt(start, file, cov, HitKind);
      NoRehits(cov);
    } else {
      var key := cov.hits.order[n - 1];
      var before := CountEvents(file, cov, HitKind, cov.hits.order[..n - 1]);
      HitsRebuilt(start, file, cov, n - 1);
      LastEvent(file, cov, HitKind, n - 1);
      UpdateOneMore(start, before, Count(HitKind, file, ReadKey(cov, HitKind, n - 1, key), Taken(cov, HitKind, key)));
      RehitsStep(UpdateAll(start, before), file, cov, n - 1);
    }
  }

  /** A record printed and read back: only the keys of its function counts can change. */
  function Reread(cov: Cov): Cov {
    cov.(hits := Rehits(cov, |cov.hits.order|))
  }

  /** What the records of a merge keep. */
  ghost predicate Sound(cov: Cov) {
    && LcovSums.TidyCov(cov)
    && forall key :: (key in cov.numeric ==> key in cov.branches.order) && (key !in cov.numeric ==> Get(cov.branches, key) == 0)
  }

  lemma RecordRebuilt(file: string, cov: Cov)
    requires Sound(cov)
    ensures UpdateAll(EmptyCov(), Canon(file, cov)) == Reread(cov)
  {
    hide UpdateAll, CountEvents, FnEvents, Copies, Rehits, Get;
    var lines := CountEvents(file, cov, LineKind, cov.lines.order);
    var branches := CountEvents(file, cov, BranchKind, cov.branches.order);
    var hits := CountEvents(file, cov, HitKind, cov.hits.order);
    var fns := FnEvents(file, cov.fns);
    UpdateAppend(EmptyCov(), [File(file)], fns + (hits + (branches + lines)));
    FileOnly(file);
    UpdateAppend(EmptyCov(), fns, hits + (branches + lines));
    FnsRebuilt(EmptyCov(), file, cov.fns);
    var c1 := EmptyCov().(fns := cov.fns);
    UpdateAppend(c1, hits, branches + lines);
    WholeHits(c1, file, cov);
    var c2 := c1.(hits := Reread(cov).hits);
    UpdateAppend(c2, branches, lines);
    WholeBranches(c2, file, cov);
    var c3 := c2.(branches := cov.branches, numeric := cov.numeric);
    WholeLines(c3, file, cov);
  }

  lemma FileOnly(file: string)
    ensures UpdateAll(EmptyCov(), [File(file)]) == EmptyCov()
  {
    UpdateOneMore(EmptyCov(), [], File(file));
    assert [] + [File(file)] == [File(file)];
  }

  lemma WholeHits(start: Cov, file: string, cov: Cov)
    requires start.hits == Empty()
    ensures UpdateAll(start, CountEvents(file, cov, HitKind, cov.hits.order)) == start.(hits := Reread(cov).hits)
  {
    hide UpdateAll, CountEvents, Rehits;
    HitsRebuilt(start, file, cov, |cov.hits.order|);
    assert cov.hits.order[..|cov.hits.order|] == cov.hits.order;
  }

  lemma WholeBranches(start: Cov, file: string, cov: Cov)
    requires start.branches == Empty() && start.numeric == {} && Sound(cov)
    ensures UpdateAll(start, CountEvents(file, cov, BranchKind, cov.branches.order))
         == start.(branches := cov.branches, numeric := cov.numeric)
  {
    hide UpdateAll, CountEvents, Copies, Get;
    BranchesRebuilt(start, file, cov, |cov.branches.order|);
    assert cov.branches.order[..|cov.branches.order|] == cov.branches.order;
    var got := UpdateAll(start, CountEvents(file, cov, BranchKind, cov.branches.order));
    CopyWhole(got.branches, cov.branches);
    assert got.numeric == cov.numeric;
  }

  lemma WholeLines(start: Cov, file: string, cov: Cov)
    requires start.lines == Empty() && Sound(cov)
    ensures UpdateAll(start, CountEvents(file, cov, LineKind, cov.lines.order)) == start.(lines := cov.lines)
  {
    hide UpdateAll, CountEvents, Copies, Get;
    LinesRebuilt(start, file, cov, |cov.lines.order|);
    assert cov.lines.order[..|cov.lines.order|] == cov.lines.order;
    CopyWhole(UpdateAll(start, CountEvents(file, cov, LineKind, cov.lines.order)).lines, cov.lines);
  }

  // ----- Reading all records back -----

  function RereadFiles(files: Files, n: nat): Files
    requires n <= |files.order|
  {
    if n == 0 then Empty() else RereadFiles(files, n - 1).Set(files.order[n - 1], Reread(CovOf(files, files.order[n - 1])))
  }

  ghost predicate SoundFiles(files: Files) {
    files.Valid() && forall file :: Sound(CovOf(files, file))
  }

  lemma SetOne(files: Files, added: string, cov: Cov, file: string)
    ensures CovOf(files.Set(added, cov), file) == if file == added then cov else CovOf(files, file)
    ensures file in files.Set(added, cov).table <==> file == added || file in files.table
    ensures added !in files.table ==> files.Set(added, cov).order == files.order + [added]
  {
  }

  lemma RereadStep(files: Files, n: nat)
    requires 0 < n <= |files.order|
    ensures RereadFiles(files, n)
         == RereadFiles(files, n - 1).Set(files.order[n - 1], Reread(CovOf(files, files.order[n - 1])))
    ensures files.order[..n] == files.order[..n - 1] + [files.order[n - 1]]
    ensures SoundFiles(files) ==> files.order[n - 1] !in files.order[..n - 1]
  {
    hide Reread, Sound, CovOf;
  }

  lemma NoReread(files: Files)
    ensures RereadFiles(files, 0) == Empty() && Empty<string, Cov>().order == [] && Empty<string, Cov>().table == map[]
    ensures forall file :: CovOf(Empty(), file) == EmptyCov()
  {
  }

  /** The record of `file` among the first `n`. */
  lemma {:induction false} RereadCov(files: Files, n: nat, file: string)
    requires SoundFiles(files) && n <= |files.order|
    ensures file in RereadFiles(files, n).table <==> file in files.order[..n]
    ensures CovOf(RereadFiles(files, n), file) == if file in files.order[..n] then Reread(CovOf(files, file)) else EmptyCov()
  {
    hide *;
    if n == 0 {
      NoReread(files);
    } else {
      RereadCov(files, n - 1, file);
      RereadStep(files, n);
      SetOne(RereadFiles(files, n - 1), files.order[n - 1], Reread(CovOf(files, files.order[n - 1])), file);
    }
  }

  lemma {:induction false} RereadOrder(files: Files, n: nat)
    requires SoundFiles(files) && n <= |files.order|
    ensures RereadFiles(files, n).order == files.order[..n]
  {
    hide *;
    if n == 0 {
      NoReread(files);
    } else {
      var file := files.order[n - 1];
      RereadOrder(files, n - 1);
      RereadCov(files, n - 1, file);
      RereadStep(files, n);
      SetOne(RereadFiles(files, n - 1), file, Reread(CovOf(files, file)), file);
    }
  }

  lemma {:induction false} CountsOfFile(file: string, cov: Cov, kind: Kind, keys: seq<string>)
    ensures AllOf(file, CountEvents(file, cov, kind, keys))
    decreases |keys|
  {
    if keys != [] {
      CountsOfFile(file, cov, kind, keys[..|keys| - 1]);
    }
  }

  lemma {:induction false} FnsOfFile(file: string, fns: seq<string>)
    ensures AllOf(file, FnEvents(file, fns))
    decreases |fns|
  {
    if fns != [] {
      FnsOfFile(file, fns[..|fns| - 1]);
    }
  }

  lemma CanonOfFile(file: string, cov: Cov)
    ensures AllOf(file, Canon(file, cov)) && Canon(file, cov) != []
  {
    hide CountEvents, FnEvents;
    FnsOfFile(file, cov.fns);
    CountsOfFile(file, cov, HitKind, cov.hits.order);
    CountsOfFile(file, cov, BranchKind, cov.branches.order);
    CountsOfFile(file, cov, LineKind, cov.lines.order);
  }

  lemma {:induction false} FilesRebuilt(files: Files, n: nat)
    requires SoundFiles(files) && n <= |files.order|
    ensures Build(Empty(), CanonAll(files, n)) == RereadFiles(files, n)
  {
    hide *;
    if n == 0 {
      NoFiles(files);
    } else {
      var file := files.order[n - 1];
      var cov := CovOf(files, file);
      FilesRebuilt(files, n - 1);
      LastRecord(files, n);
      BuildAppend(Empty(), CanonAll(files, n - 1), Canon(file, cov));
      CanonOfFile(file, cov);
      BuildOneFile(RereadFiles(files, n - 1), file, Canon(file, cov));
      NewHere(files, n);
      RecordRebuilt(file, cov);
    }
  }

  lemma NoFiles(files: Files)
    ensures Build(Empty(), CanonAll(files, 0)) == RereadFiles(files, 0)
  {
  }

  lemma NewHere(files: Files, n: nat)
    requires SoundFiles(files) && 0 < n <= |files.order|
    ensures var file := files.order[n - 1];
      && CovOf(RereadFiles(files, n - 1), file) == EmptyCov() && Sound(CovOf(files, file))
      && RereadFiles(files, n) == RereadFiles(files, n - 1).Set(file, Reread(CovOf(files, file)))
  {
    hide Reread, Sound, CovOf;
    RereadCov(files, n - 1, files.order[n - 1]);
    assert files.order[n - 1] !in files.order[..n - 1];
  }

  lemma MergedSound(shards: seq<Option<string>>)
    ensures SoundFiles(Merged(shards))
  {
    hide LcovSums.TidyCov, AllEvents, Build, Get;
    var files := Merged(shards);
    LcovSums.BuildTidy(AllEvents(shards));
    assert LcovSums.TidyCov(EmptyCov()) by { LcovSums.EmptyTidy(); }
    forall file ensures Sound(CovOf(files, file)) {
      var cov := CovOf(files, file);
      assert LcovSums.TidyCov(cov);
      assert cov.branches.Valid() by { TidyBranches(cov); }
      forall key ensures (key in cov.numeric ==> key in cov.branches.order) && (key !in cov.numeric ==> Get(cov.branches, key) == 0) {
        LcovSums.BuildSums(AllEvents(shards), BranchKind, file, key);
      }
    }
  }

  lemma TidyBranches(cov: Cov)
    requires LcovSums.TidyCov(cov)
    ensures cov.branches.Valid()
  {
  }

  /** Merging a merged report gives its records, up to the keys of their function counts. */
  lemma Remerged(shards: seq<Option<string>>)
    ensures var files := Merged(shards);
      Merged([Some(PrintReport(files))]) == RereadFiles(files, |files.order|)
  {
    hide Build, Events, CanonAll, RereadFiles, PrintReport;
    var files := Merged(shards);
    hide Merged;
    LcovProper.MergedRead(shards);
    MergedSound(shards);
    FilesRebuilt(files, |files.order|);
    OneShard(PrintReport(files));
  }

  lemma OneShard(text: string)
    ensures Merged([Some(text)]) == Build(Empty(), Events(text)) && HasReport([Some(text)])
  {
    hide Build, Events;
    assert [Some(text)][..0] == [];
    assert AllEvents([Some(text)]) == AllEvents([]) + Events(text);
    assert [] + Events(text) == Events(text);
    assert [Some(text)][0].Some?;
  }
}
