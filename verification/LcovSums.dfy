/** The merged record of a file holds, under every key, the sum over all shards. */
module LcovSums {
  import opened Options
  import opened JsMaps
  import opened Lcov

  // ----- Sums over events -----

  function Sum(events: seq<Event>, weight: Event -> int): int
    decreases |events|
  {
    if events == [] then 0 else Sum(events[..|events| - 1], weight) + weight(events[|events| - 1])
  }

  predicate IsCount(e: Event, kind: Kind, file: string, key: string) {
    e.Count? && e.kind == kind && e.file == file && e.key == key
  }

  /** What an event adds to the count of `key`. */
  function AmountFor(kind: Kind, file: string, key: string): Event -> int {
    (e: Event) => if IsCount(e, kind, file, key) then Amount(e.taken) else 0
  }

  function TimesFor(kind: Kind, file: string, key: string): Event -> int {
    (e: Event) => if IsCount(e, kind, file, key) then 1 else 0
  }

  /** Counts with a number, as opposed to "-". */
  function NumbersFor(kind: Kind, file: string, key: string): Event -> int {
    (e: Event) => if IsCount(e, kind, file, key) && e.taken.Some? then 1 else 0
  }

  function MentionsFor(file: string): Event -> int {
    (e: Event) => if e.file == file then 1 else 0
  }


  lemma {:induction false} SumAppend(a: seq<Event>, b: seq<Event>, weight: Event -> int)
    ensures Sum(a + b, weight) == Sum(a, weight) + Sum(b, weight)
    decreases |b|
  {
    if b == [] {
      assert a + b == a;
    } else {
      assert (a + b)[..|a + b| - 1] == a + b[..|b| - 1];
      SumAppend(a, b[..|b| - 1], weight);
    }
  }

  lemma {:induction false} TimesNonNegative(events: seq<Event>, kind: Kind, file: string, key: string)
    ensures Sum(events, TimesFor(kind, file, key)) >= 0 && Sum(events, NumbersFor(kind, file, key)) >= 0
    decreases |events|
  {
    if events != [] {
      TimesNonNegative(events[..|events| - 1], kind, file, key);
    }
  }

  // ----- Sums over shards -----

  function ShardEvents(shard: Option<string>): seq<Event> {
    if shard == None then [] else Events(shard.value)
  }

  /** The sum over the shards of what each says by itself. */
  function ShardSum(shards: seq<Option<string>>, weight: Event -> int): int
    decreases |shards|
  {
    if shards == [] then 0
    else ShardSum(shards[..|shards| - 1], weight) + Sum(ShardEvents(shards[|shards| - 1]), weight)
  }

  lemma {:induction false} SumOfShards(shards: seq<Option<string>>, weight: Event -> int)
    ensures Sum(AllEvents(shards), weight) == ShardSum(shards, weight)
    decreases |shards|
  {
    if shards != [] {
      hide Events, Sum;
      SumOfShards(shards[..|shards| - 1], weight);
      SumAppend(AllEvents(shards[..|shards| - 1]), ShardEvents(shards[|shards| - 1]), weight);
    } else {
      assert Sum([], weight) == 0;
    }
  }

  lemma {:induction false} ShardSumAppend(a: seq<Option<string>>, b: seq<Option<string>>, weight: Event -> int)
    ensures ShardSum(a + b, weight) == ShardSum(a, weight) + ShardSum(b, weight)
    decreases |b|
  {
    if b == [] {
      assert a + b == a;
    } else {
      hide ShardEvents, Sum;
      assert (a + b)[..|a + b| - 1] == a + b[..|b| - 1];
      ShardSumAppend(a, b[..|b| - 1], weight);
    }
  }

  lemma SameWithoutOne<T>(s: seq<T>, x: T, a: seq<T>, b: seq<T>)
    requires multiset(s + [x]) == multiset(a + [x] + b)
    ensures multiset(s) == multiset(a + b)
  {
    assert multiset(s) == multiset(s + [x]) - multiset{x};
    assert multiset(a + b) == multiset(a + [x] + b) - multiset{x};
  }

  /** The order of the shards does not matter to a sum. */
  lemma {:induction false} SumPermutes(shards: seq<Option<string>>, others: seq<Option<string>>, weight: Event -> int)
    requires multiset(shards) == multiset(others)
    ensures ShardSum(shards, weight) == ShardSum(others, weight)
    decreases |shards|
  {
    hide ShardEvents, Sum;
    assert |multiset(shards)| == |shards| && |multiset(others)| == |others|;
    if shards == [] {
      assert others == [];
    } else {
      hide ShardSum;
      var n, last := |shards| - 1, shards[|shards| - 1];
      assert shards == shards[..n] + [last];
      assert last in multiset(others);
      var i :| 0 <= i < |others| && others[i] == last;
      var a, b := others[..i], others[i + 1..];
      assert others == a + [last] + b;
      SameWithoutOne(shards[..n], last, a, b);
      SumPermutes(shards[..n], a + b, weight);
      ShardSumAppend(shards[..n], [last], weight);
      ShardSumAppend(a + [last], b, weight);
      ShardSumAppend(a, [last], weight);
      ShardSumAppend(a, b, weight);
    }
  }

  // ----- The records are the sums -----

  lemma ApplyCov(files: Files, e: Event, file: string)
    ensures CovOf(Apply(files, e), file) == if e.file == file then Update(CovOf(files, file), e) else CovOf(files, file)
    ensures file in Apply(files, e).table <==> file in files.table || e.file == file
  {
    hide Update;
  }

  ghost predicate HoldsSums(cov: Cov, events: seq<Event>, kind: Kind, file: string, key: string) {
    && (key in CountsOf(cov, kind).table <==> Sum(events, TimesFor(kind, file, key)) > 0)
    && Get(CountsOf(cov, kind), key) == Sum(events, AmountFor(kind, file, key))
    && (key in cov.numeric <==> Sum(events, NumbersFor(BranchKind, file, key)) > 0)
    && (key in cov.numeric ==> key in cov.branches.table)
    && (key !in cov.numeric ==> Get(cov.branches, key) == 0)
  }

  lemma SumOneMore(events: seq<Event>, e: Event, weight: Event -> int)
    ensures Sum(events + [e], weight) == Sum(events, weight) + weight(e)
  {
    assert (events + [e])[..|events|] == events;
  }

  lemma UpdateSums(cov: Cov, events: seq<Event>, e: Event, kind: Kind, file: string, key: string)
    requires HoldsSums(cov, events, kind, file, key)
    requires Sum(events, TimesFor(kind, file, key)) >= 0 && Sum(events, NumbersFor(BranchKind, file, key)) >= 0
    ensures HoldsSums(if e.file == file then Update(cov, e) else cov, events + [e], kind, file, key)
  {
    hide Sum;
    SumOneMore(events, e, TimesFor(kind, file, key));
    SumOneMore(events, e, AmountFor(kind, file, key));
    SumOneMore(events, e, NumbersFor(BranchKind, file, key));
    if e.Count? && e.file == file {
      match e.kind
      case LineKind => assert Update(cov, e).branches == cov.branches && Update(cov, e).hits == cov.hits;
      case HitKind => assert Update(cov, e).branches == cov.branches && Update(cov, e).lines == cov.lines;
      case BranchKind => assert Update(cov, e).lines == cov.lines && Update(cov, e).hits == cov.hits;
    }
  }

  lemma {:induction false} BuildSums(events: seq<Event>, kind: Kind, file: string, key: string)
    ensures HoldsSums(CovOf(Build(Empty(), events), file), events, kind, file, key)
    decreases |events|
  {
    if events != [] {
      hide HoldsSums, Apply, Sum;
      var before, e := events[..|events| - 1], events[|events| - 1];
      BuildSums(before, kind, file, key);
      ApplyCov(Build(Empty(), before), e, file);
      TimesNonNegative(before, kind, file, key);
      TimesNonNegative(before, BranchKind, file, key);
      UpdateSums(CovOf(Build(Empty(), before), file), before, e, kind, file, key);
      assert before + [e] == events;
    }
  }

  lemma {:induction false} BuildMentions(events: seq<Event>, file: string)
    ensures file in Build(Empty(), events).table <==> Sum(events, MentionsFor(file)) > 0
    ensures Sum(events, MentionsFor(file)) >= 0
    decreases |events|
  {
    if events != [] {
      hide Apply;
      BuildMentions(events[..|events| - 1], file);
      ApplyCov(Build(Empty(), events[..|events| - 1]), events[|events| - 1], file);
    }
  }

  // ----- Keys are listed once -----

  ghost predicate TidyCov(cov: Cov) {
    Unique(cov.fns) && cov.lines.Valid() && cov.hits.Valid() && cov.branches.Valid()
  }

  ghost predicate Tidy(files: Files) {
    files.Valid() && forall file :: file in files.table ==> TidyCov(files.table[file])
  }

  lemma BumpValid(m: Counts, key: string, count: int)
    requires m.Valid()
    ensures Bump(m, key, count).Valid()
  {
    hide Get;
    SetValid(m, key, Get(m, key) + count);
  }

  lemma AddBranchTidy(cov: Cov, key: string, taken: Option<int>)
    requires TidyCov(cov)
    ensures TidyCov(AddBranch(cov, key, taken))
  {
    hide Get, Unique, JsMap.Valid, JsMap.Set;
    SetValid(cov.branches, key, 0);
    if taken.Some? {
      SetValid(cov.branches, key, Get(cov.branches, key) + taken.value);
      SetValid(cov.branches, key, taken.value);
    }
  }

  lemma UpdateTidy(cov: Cov, e: Event)
    requires TidyCov(cov)
    ensures TidyCov(Update(cov, e))
  {
    hide Bump, AddBranch, JsMap.Valid;
    match e
    case File(_) =>
    case Fn(_, key) =>
    case Count(kind, _, key, taken) =>
      BumpValid(cov.lines, key, Amount(taken));
      BumpValid(cov.hits, key, Amount(taken));
      AddBranchTidy(cov, key, taken);
  }

  lemma {:induction false} BuildTidy(events: seq<Event>)
    ensures Tidy(Build(Empty(), events))
    decreases |events|
  {
    if events != [] {
      hide TidyCov, Update;
      var files, e := Build(Empty(), events[..|events| - 1]), events[|events| - 1];
      BuildTidy(events[..|events| - 1]);
      assert TidyCov(EmptyCov()) by { EmptyTidy(); }
      UpdateTidy(CovOf(files, e.file), e);
      SetValid(files, e.file, Update(CovOf(files, e.file), e));
    }
  }

  lemma EmptyTidy()
    ensures TidyCov(EmptyCov())
  {
  }

  /**
    Coverage merge is a sum: a file has exactly one record if some shard mentions it; in it every key that some
    shard counts is listed exactly once, with the sum of what the shards say, each by itself; and a branch is
    printed as "-" exactly if every shard that lists it says "-".
   */
  lemma MergeIsSum(shards: seq<Option<string>>, kind: Kind, file: string, key: string)
    ensures var files := Merged(shards);
      && Unique(files.order)
      && (file in files.order <==> ShardSum(shards, MentionsFor(file)) > 0)
    ensures var cov := CovOf(Merged(shards), file);
      && Unique(CountsOf(cov, kind).order)
      && (key in CountsOf(cov, kind).order <==> ShardSum(shards, TimesFor(kind, file, key)) > 0)
      && Get(CountsOf(cov, kind), key) == ShardSum(shards, AmountFor(kind, file, key))
      && (key in cov.numeric <==> ShardSum(shards, NumbersFor(BranchKind, file, key)) > 0)
  {
    hide AllEvents, Build, Sum, ShardSum;
    var events := AllEvents(shards);
    BuildSums(events, kind, file, key);
    BuildMentions(events, file);
    BuildTidy(events);
    assert TidyCov(EmptyCov()) by { EmptyTidy(); }
    SumOfShards(shards, MentionsFor(file));
    SumOfShards(shards, TimesFor(kind, file, key));
    SumOfShards(shards, AmountFor(kind, file, key));
    SumOfShards(shards, NumbersFor(BranchKind, file, key));
  }

  /** The counts do not depend on the order of the shards, nor does which files and keys are listed. */
  lemma MergeIsSymmetric(shards: seq<Option<string>>, others: seq<Option<string>>, kind: Kind, file: string, key: string)
    requires multiset(shards) == multiset(others)
    ensures var cov, cov' := CovOf(Merged(shards), file), CovOf(Merged(others), file);
      && (file in Merged(shards).order <==> file in Merged(others).order)
      && (key in CountsOf(cov, kind).order <==> key in CountsOf(cov', kind).order)
      && Get(CountsOf(cov, kind), key) == Get(CountsOf(cov', kind), key)
      && (key in cov.numeric <==> key in cov'.numeric)
  {
    hide Merged, ShardSum, Get;
    MergeIsSum(shards, kind, file, key);
    MergeIsSum(others, kind, file, key);
    SumPermutes(shards, others, MentionsFor(file));
    SumPermutes(shards, others, TimesFor(kind, file, key));
    SumPermutes(shards, others, AmountFor(kind, file, key));
    SumPermutes(shards, others, NumbersFor(BranchKind, file, key));
  }
}
