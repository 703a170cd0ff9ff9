/** The condition for a re-merge to reproduce the report, read off the FN and FNDA lines of the shards. */
module LcovByLines {
  import opened Options
  import opened JsMaps
  import opened Lcov
  import opened LcovReading
  import opened LcovRemerge
  import opened LcovFixedPoint
  import LcovSums
  import Text
  import Decimals

  // ----- The lines of one file -----

  function FnKey(e: Event, file: string): seq<string> {
    if e.Fn? && e.file == file then [e.key] else []
  }

  /** The functions that the FN lines of `file` declare. */
  function FnKeys(events: seq<Event>, file: string): seq<string>
    decreases |events|
  {
    if events == [] then [] else FnKeys(events[..|events| - 1], file) + FnKey(events[|events| - 1], file)
  }

  function CountedKey(e: Event, file: string): seq<string> {
    if e.Count? && e.kind == HitKind && e.file == file then [e.key] else []
  }

  /** The functions that the FNDA lines of `file` count, each paired with the FN line at its position. */
  function CountedKeys(events: seq<Event>, file: string): seq<string>
    decreases |events|
  {
    if events == [] then [] else CountedKeys(events[..|events| - 1], file) + CountedKey(events[|events| - 1], file)
  }

  /** The keys in order of their first appearance. */
  function FirstSeen(keys: seq<string>): seq<string> {
    AddAll([], keys)
  }

  lemma AddMore(keys: seq<string>, more: seq<string>)
    requires |more| <= 1
    ensures FirstSeen(keys + more) == if more == [] then FirstSeen(keys) else AddFn(FirstSeen(keys), more[0])
  {
    hide AddFn;
    if more == [] {
      assert keys + more == keys;
    } else {
      assert (keys + more)[..|keys|] == keys;
    }
  }

  lemma UpdateLists(cov: Cov, e: Event)
    requires cov.hits.Valid()
    ensures Update(cov, e).fns == if e.Fn? then AddFn(cov.fns, e.key) else cov.fns
    ensures Update(cov, e).hits.order == if e.Count? && e.kind == HitKind then AddFn(cov.hits.order, e.key) else cov.hits.order
  {
    hide Get;
  }

  lemma HitsValid(cov: Cov)
    requires LcovSums.TidyCov(cov)
    ensures cov.hits.Valid()
  {
  }

  /** A record lists the functions and the counted functions in order of their first appearance. */
  lemma {:induction false} BuildLists(events: seq<Event>, file: string)
    ensures var cov := CovOf(Build(Empty(), events), file);
      cov.fns == FirstSeen(FnKeys(events, file)) && cov.hits.order == FirstSeen(CountedKeys(events, file))
    decreases |events|
  {
    if events != [] {
      hide Apply, Update, AddFn, FirstSeen, CovOf, LcovSums.TidyCov, JsMap.Valid;
      var before, e := events[..|events| - 1], events[|events| - 1];
      BuildLists(before, file);
      BuildTidyCov(before, file);
      HitsValid(CovOf(Build(Empty(), before), file));
      LcovSums.ApplyCov(Build(Empty(), before), e, file);
      UpdateLists(CovOf(Build(Empty(), before), file), e);
      AddMore(FnKeys(before, file), FnKey(e, file));
      AddMore(CountedKeys(before, file), CountedKey(e, file));
    }
  }

  // ----- The condition on two lists -----

  /** The function that the `i`-th printed count is read back under. */
  function Partner(fns: seq<string>, counted: seq<string>, i: nat): string
    requires i < |counted|
  {
    if i < |fns| then fns[i] else AfterComma(counted[i])
  }

  /** The counts come back under different functions, each with the name it was printed with. */
  predicate PairsUp(fns: seq<string>, counted: seq<string>) {
    && (forall i :: 0 <= i < |counted| ==> AfterComma(Partner(fns, counted, i)) == AfterComma(counted[i]))
    && (forall i, j :: 0 <= i < j < |counted| ==> Partner(fns, counted, i) != Partner(fns, counted, j))
  }

  lemma StableIsPairsUp(cov: Cov)
    ensures Stable(cov) <==> PairsUp(cov.fns, cov.hits.order)
  {
    hide AfterComma;
    var n := |cov.hits.order|;
    var keys := ReadKeys(cov, n);
    assert forall i :: 0 <= i < n ==> keys[i] == Partner(cov.fns, cov.hits.order, i);
  }

  /** The functions and the counted functions of `file` in the shards pair up. */
  predicate LinesPairUp(shards: seq<Option<string>>, file: string) {
    PairsUp(FirstSeen(FnKeys(AllEvents(shards), file)), FirstSeen(CountedKeys(AllEvents(shards), file)))
  }

  lemma StableByLines(shards: seq<Option<string>>, file: string)
    ensures Stable(CovOf(Merged(shards), file)) <==> LinesPairUp(shards, file)
  {
    hide Build, AllEvents, Stable, PairsUp, FirstSeen, CovOf;
    BuildLists(AllEvents(shards), file);
    StableIsPairsUp(CovOf(Merged(shards), file));
  }

  /** A file that no shard mentions is no obstacle. */
  lemma AbsentIsStable(shards: seq<Option<string>>, file: string)
    requires file !in Merged(shards).order
    ensures Stable(CovOf(Merged(shards), file))
  {
    hide Merged, AfterComma;
    MergedKeys(shards, file);
  }

  /**
    Merging a merged report reproduces it, character by character, if and only if for every file the functions
    of its FN lines and those of its FNDA lines, each in order of first appearance over all shards, pair up.
   */
  lemma RemergeIsFixedByLines(shards: seq<Option<string>>)
    requires HasReport(shards)
    ensures Merge([Merge(shards)]) == Merge(shards) <==> forall file :: LinesPairUp(shards, file)
  {
    hide Merge, Merged, HasReport, LinesPairUp, Stable, CovOf;
    var files := Merged(shards);
    RemergeIsFixed(shards);
    forall file ensures LinesPairUp(shards, file) <==> Stable(CovOf(files, file)) {
      StableByLines(shards, file);
    }
    if AllStable(files, |files.order|) {
      forall file ensures LinesPairUp(shards, file) {
        if file in files.order {
          var i :| 0 <= i < |files.order| && files.order[i] == file;
          assert Stable(CovOf(files, files.order[i]));
        } else {
          AbsentIsStable(shards, file);
        }
      }
    }
  }

  // ----- A report that changes -----

  /** A count before its function: it is taken for a function `g` without a line. */
  const COUNT_FIRST := "SF:a\nFNDA:3,g\nFN:1,f"

  lemma CountFirstLines()
    ensures Text.Split(COUNT_FIRST, '\n') == ["SF:a", "FNDA:3,g", "FN:1,f"]
  {
    hide Text.Split;
    assert COUNT_FIRST == "SF:a" + ['\n'] + "FNDA:3,g\nFN:1,f";
    assert "FNDA:3,g\nFN:1,f" == "FNDA:3,g" + ['\n'] + "FN:1,f";
    Text.SplitFirst("SF:a", "FNDA:3,g\nFN:1,f", '\n');
    Text.SplitFirst("FNDA:3,g", "FN:1,f", '\n');
    Text.SplitNone("FN:1,f", '\n');
  }

  lemma CountLine(r: Reader)
    requires r == Reader(Some("a"), [], 0)
    ensures EventOf(r, "FNDA:3,g") == Some(Count(HitKind, "a", "g", Some(3)))
    ensures NextReader(r, "FNDA:3,g") == r.(index := 1)
  {
    hide EventOf, NextReader;
    var m: Counts := JsMap(["g"], map["g" := 3]);
    assert Decimals.PrintInt(3) == "3";
    NoComma("g");
    assert HitLine(m, "g") == "FNDA:3,g";
    ReadHitLine(r, "a", m, "g");
  }

  lemma NoComma(s: string)
    requires ',' !in s
    ensures AfterComma(s) == s
  {
  }

  lemma CountFirstEvents()
    ensures Events(COUNT_FIRST) == [File("a"), Count(HitKind, "a", "g", Some(3)), Fn("a", "1,f")]
  {
    hide EventOf, NextReader, EventsFrom, ReaderAfter, EventList, Text.Split;
    CountFirstLines();
    var r1, r2 := Reader(Some("a"), [], 0), Reader(Some("a"), [], 1);
    assert "SF:" + "a" == "SF:a" && "FN:" + "1,f" == "FN:1,f";
    ReadFile(Start(), "a");
    OneLine(Start(), "SF:a");
    ListOfOne(EventOf(Start(), "SF:a"));
    OneMoreLine(Start(), ["SF:a"], "FNDA:3,g");
    CountLine(r1);
    ListOfOne(EventOf(r1, "FNDA:3,g"));
    assert ["SF:a"] + ["FNDA:3,g"] == ["SF:a", "FNDA:3,g"];
    OneMoreLine(Start(), ["SF:a", "FNDA:3,g"], "FN:1,f");
    ReadFn(r2, "a", "1,f");
    ListOfOne(EventOf(r2, "FN:1,f"));
    assert ["SF:a", "FNDA:3,g"] + ["FN:1,f"] == ["SF:a", "FNDA:3,g", "FN:1,f"];
  }

  lemma KeysAppend(events: seq<Event>, e: Event, file: string)
    ensures FnKeys(events + [e], file) == FnKeys(events, file) + FnKey(e, file)
    ensures CountedKeys(events + [e], file) == CountedKeys(events, file) + CountedKey(e, file)
  {
    assert (events + [e])[..|events|] == events;
  }

  lemma CountFirstKeys(events: seq<Event>)
    requires events == [File("a"), Count(HitKind, "a", "g", Some(3)), Fn("a", "1,f")]
    ensures FnKeys(events, "a") == ["1,f"] && CountedKeys(events, "a") == ["g"]
  {
    KeysAppend([], events[0], "a");
    KeysAppend([events[0]], events[1], "a");
    KeysAppend([events[0], events[1]], events[2], "a");
    assert [] + [events[0]] == [events[0]];
    assert [events[0]] + [events[1]] == [events[0], events[1]];
    assert [events[0], events[1]] + [events[2]] == events;
  }

  lemma OneSeen(key: string)
    ensures FirstSeen([key]) == [key]
  {
    AddMore([], [key]);
    assert [] + [key] == [key];
    assert FirstSeen([]) == [];
  }

  lemma NamesDiffer()
    ensures AfterComma("1,f") == "f" && AfterComma("g") == "g"
  {
    NoComma("g");
    AfterCommaIs("1", "f");
    assert "1" + ("," + "f") == "1,f";
  }

  /** Merging the merged report of such a shard changes it: the count of `g` becomes one of `f`. */
  lemma RemergeCanChange()
    ensures HasReport([Some(COUNT_FIRST)]) && Merge([Merge([Some(COUNT_FIRST)])]) != Merge([Some(COUNT_FIRST)])
  {
    hide *;
    OneShard(COUNT_FIRST);
    assert HasReport([Some(COUNT_FIRST)]);
    assert AllEvents([Some(COUNT_FIRST)]) == Events(COUNT_FIRST) by { OneReport(COUNT_FIRST); }
    CountFirstEvents();
    CountFirstKeys(Events(COUNT_FIRST));
    OneSeen("1,f");
    OneSeen("g");
    NamesDiffer();
    assert !PairsUp(["1,f"], ["g"]) by { NotPaired("1,f", "g"); }
    assert !LinesPairUp([Some(COUNT_FIRST)], "a") by { LinesAre([Some(COUNT_FIRST)], "a"); }
    RemergeIsFixedByLines([Some(COUNT_FIRST)]);
  }

  lemma OneReport(text: string)
    ensures AllEvents([Some(text)]) == Events(text)
  {
    hide Events;
    assert [Some(text)][..0] == [];
    assert [] + Events(text) == Events(text);
  }

  lemma NotPaired(fn: string, counted: string)
    requires AfterComma(fn) != AfterComma(counted)
    ensures !PairsUp([fn], [counted])
  {
    hide AfterComma;
    assert Partner([fn], [counted], 0) == fn;
  }

  lemma LinesAre(shards: seq<Option<string>>, file: string)
    ensures LinesPairUp(shards, file)
       == PairsUp(FirstSeen(FnKeys(AllEvents(shards), file)), FirstSeen(CountedKeys(AllEvents(shards), file)))
  {
    hide PairsUp, AllEvents;
  }
}
