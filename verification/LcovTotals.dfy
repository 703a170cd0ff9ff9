/** The lines of a printed record, told apart by how they begin, and the totals among them. */
module LcovTotals {
  import opened Options
  import opened Lcov
  import opened LcovReading
  import LcovProper
  import Text
  import Decimals

  // ----- Reading printed lines -----

  function LabelledIn(line: string, tag: string): seq<string> {
    if Text.StartsWith(line, tag) then [line[|tag|..]] else []
  }

  /** What follows `tag` on the lines that begin with it, in order. */
  function Labelled(lines: seq<string>, tag: string): seq<string>
    decreases |lines|
  {
    if lines == [] then []
    else Labelled(lines[..|lines| - 1], tag) + LabelledIn(lines[|lines| - 1], tag)
  }

  /** The number on a count line: before the first comma on lines of functions, after the last one on others. */
  function NumberOn(rest: string, first: bool): int {
    var parts := Text.Split(rest, ',');
    Decimals.ParseInt(if first then parts[0] else Text.Last(parts))
  }

  /** How many of the lines have a positive number; a "-" has none. */
  function Hits(rests: seq<string>, first: bool): nat
    decreases |rests|
  {
    if rests == [] then 0
    else Hits(rests[..|rests| - 1], first) + if NumberOn(rests[|rests| - 1], first) > 0 then 1 else 0
  }

  /** One line `found` says how many lines `count` there are, and one line `hit` how many of them are positive. */
  predicate Totalled(lines: seq<string>, count: string, found: string, hit: string, first: bool) {
    var counts := Labelled(lines, count);
    && Labelled(lines, found) == [Decimals.Print(|counts|)]
    && Labelled(lines, hit) == [Decimals.Print(Hits(counts, first))]
  }

  /** A record of `file`: named by its first line, ended by its last, and with the totals of what it lists. */
  predicate IsRecord(lines: seq<string>, file: string) {
    && |lines| > 1 && lines[0] == "SF:" + file && lines[|lines| - 1] == "end_of_record"
    && Labelled(lines, "SF:") == [file] && Labelled(lines, "end_of_record") == [""]
    && Totalled(lines, "FNDA:", "FNF:", "FNH:", true)
    && Totalled(lines, "DA:", "LF:", "LH:", false)
    && (if Labelled(lines, "BRDA:") == [] then Labelled(lines, "BRF:") == [] && Labelled(lines, "BRH:") == []
        else Totalled(lines, "BRDA:", "BRF:", "BRH:", false))
  }

  // ----- Telling the labels apart -----

  datatype Label = SF | FN | FNDA | FNF | FNH | BRDA | BRF | BRH | DA | LF | LH | End

  function Head(l: Label): (s: string)
    ensures |s| >= 3
  {
    match l
    case SF => "SF:"
    case FN => "FN:"
    case FNDA => "FNDA:"
    case FNF => "FNF:"
    case FNH => "FNH:"
    case BRDA => "BRDA:"
    case BRF => "BRF:"
    case BRH => "BRH:"
    case DA => "DA:"
    case LF => "LF:"
    case LH => "LH:"
    case End => "end_of_record"
  }

  /** The first character in which two labels differ. */
  function Difference(l: Label, m: Label): (i: nat)
    ensures i < 3
  {
    if Head(l)[0] != Head(m)[0] then 0 else if Head(l)[1] != Head(m)[1] then 1 else 2
  }

  lemma LabelsDiffer(l: Label, m: Label)
    requires l != m
    ensures Head(l)[Difference(l, m)] != Head(m)[Difference(l, m)]
  {
  }

  lemma LineLabelled(l: Label, rest: string, m: Label)
    ensures LabelledIn(Head(l) + rest, Head(m)) == if l == m then [rest] else []
  {
    hide Head, Difference, Text.StartsWith;
    if l == m {
      IsPrefix(Head(l), rest);
    } else {
      LabelsDiffer(l, m);
      NotPrefix(Head(l), rest, Head(m), Difference(l, m));
    }
  }

  lemma {:induction false} LabelledAppend(a: seq<string>, b: seq<string>, tag: string)
    ensures Labelled(a + b, tag) == Labelled(a, tag) + Labelled(b, tag)
    decreases |b|
  {
    hide LabelledIn;
    if b == [] {
      assert a + b == a;
    } else {
      assert (a + b)[..|a + b| - 1] == a + b[..|b| - 1];
      LabelledAppend(a, b[..|b| - 1], tag);
    }
  }

  lemma LabelledOne(l: Label, rest: string, m: Label)
    ensures Labelled([Head(l) + rest], Head(m)) == if l == m then [rest] else []
  {
    hide Head, LabelledIn;
    LineLabelled(l, rest, m);
    assert [Head(l) + rest][..0] == [];
  }

  // ----- The lines of each part -----

  function CountLabel(kind: Kind): Label {
    match kind
    case LineKind => DA
    case HitKind => FNDA
    case BranchKind => BRDA
  }

  /** What follows the label on the line of a count. */
  function Rest(cov: Cov, kind: Kind, key: string): string {
    match kind
    case LineKind => key + ("," + Decimals.PrintInt(Get(cov.lines, key)))
    case HitKind => Decimals.PrintInt(Get(cov.hits, key)) + ("," + AfterComma(key))
    case BranchKind => key + ("," + if key in cov.numeric then Decimals.PrintInt(Get(cov.branches, key)) else "-")
  }

  function Rests(cov: Cov, kind: Kind, keys: seq<string>): (r: seq<string>)
    ensures |r| == |keys|
    decreases |keys|
  {
    if keys == [] then [] else Rests(cov, kind, keys[..|keys| - 1]) + [Rest(cov, kind, keys[|keys| - 1])]
  }

  lemma CountIs(cov: Cov, kind: Kind, key: string)
    ensures PrintCount(cov, kind, key) == Head(CountLabel(kind)) + Rest(cov, kind, key)
  {
    hide Decimals.PrintInt, AfterComma, Get;
  }

  lemma {:induction false} CountsLabelled(cov: Cov, kind: Kind, keys: seq<string>, m: Label)
    ensures Labelled(PrintCounts(cov, kind, keys), Head(m)) == if CountLabel(kind) == m then Rests(cov, kind, keys) else []
    decreases |keys|
  {
    hide Head, CountLabel, Rest, LabelledIn, PrintCount;
    if keys != [] {
      CountsLabelled(cov, kind, keys[..|keys| - 1], m);
      CountIs(cov, kind, keys[|keys| - 1]);
      LineLabelled(CountLabel(kind), Rest(cov, kind, keys[|keys| - 1]), m);
    }
  }

  lemma {:induction false} FnsLabelled(fns: seq<string>, m: Label)
    ensures Labelled(FnLines(fns), Head(m)) == if m == FN then fns else []
    decreases |fns|
  {
    hide Head, LabelledIn;
    if fns != [] {
      FnsLabelled(fns[..|fns| - 1], m);
      LineLabelled(FN, fns[|fns| - 1], m);
      assert Head(FN) == "FN:" by { HeadOfFn(); }
    }
  }

  lemma HeadOfFn()
    ensures Head(FN) == "FN:"
  {
  }

  /** Two totals under their labels. */
  lemma TwoLabelled(l: Label, a: string, k: Label, b: string, m: Label)
    requires l != k
    ensures Labelled([Head(l) + a, Head(k) + b], Head(m)) == if m == l then [a] else if m == k then [b] else []
  {
    hide Head, Labelled;
    LabelledOne(l, a, m);
    LabelledOne(k, b, m);
    LabelledAppend([Head(l) + a], [Head(k) + b], Head(m));
    assert [Head(l) + a] + [Head(k) + b] == [Head(l) + a, Head(k) + b];
  }

  lemma HitPartLabelled(cov: Cov, m: Label)
    ensures Labelled(HitPart(cov), Head(m))
      == if m == FNDA then Rests(cov, HitKind, cov.hits.order)
         else if m == FNF then [Decimals.Print(|cov.hits.order|)]
         else if m == FNH then [Decimals.Print(Positive(cov, HitKind, cov.hits.order))]
         else []
  {
    hide PrintCounts, Labelled, Positive, Decimals.Print, Rests;
    CountsLabelled(cov, HitKind, cov.hits.order, m);
    TwoLabelled(FNF, Decimals.Print(|cov.hits.order|), FNH, Decimals.Print(Positive(cov, HitKind, cov.hits.order)), m);
    LabelledAppend(PrintCounts(cov, HitKind, cov.hits.order), Totals(cov, HitKind, "FNF:", "FNH:"), Head(m));
  }

  lemma LinePartLabelled(cov: Cov, m: Label)
    ensures Labelled(LinePart(cov), Head(m))
      == if m == DA then Rests(cov, LineKind, cov.lines.order)
         else if m == LF then [Decimals.Print(|cov.lines.order|)]
         else if m == LH then [Decimals.Print(Positive(cov, LineKind, cov.lines.order))]
         else []
  {
    hide PrintCounts, Labelled, Positive, Decimals.Print, Rests;
    CountsLabelled(cov, LineKind, cov.lines.order, m);
    TwoLabelled(LF, Decimals.Print(|cov.lines.order|), LH, Decimals.Print(Positive(cov, LineKind, cov.lines.order)), m);
    LabelledAppend(PrintCounts(cov, LineKind, cov.lines.order), Totals(cov, LineKind, "LF:", "LH:"), Head(m));
  }

  lemma BranchPartLabelled(cov: Cov, m: Label)
    ensures Labelled(BranchPart(cov), Head(m))
      == if m == BRDA then Rests(cov, BranchKind, cov.branches.order)
         else if cov.branches.order == [] then []
         else if m == BRF then [Decimals.Print(|cov.branches.order|)]
         else if m == BRH then [Decimals.Print(Positive(cov, BranchKind, cov.branches.order))]
         else []
  {
    hide PrintCounts, Labelled, Positive, Decimals.Print, Rests;
    var counts := PrintCounts(cov, BranchKind, cov.branches.order);
    CountsLabelled(cov, BranchKind, cov.branches.order, m);
    TwoLabelled(BRF, Decimals.Print(|cov.branches.order|), BRH, Decimals.Print(Positive(cov, BranchKind, cov.branches.order)), m);
    LabelledAppend(counts, Totals(cov, BranchKind, "BRF:", "BRH:"), Head(m));
    if cov.branches.order == [] {
      assert counts + [] == counts;
    }
  }

  /** The lines of a record with each label. */
  lemma RecordLabelled(file: string, cov: Cov, m: Label)
    ensures Labelled(PrintRecord(file, cov), Head(m))
      == (if m == SF then [file] else []) + (if m == FN then cov.fns else [])
         + Labelled(HitPart(cov), Head(m)) + Labelled(BranchPart(cov), Head(m)) + Labelled(LinePart(cov), Head(m))
         + (if m == End then [""] else [])
  {
    hide FnLines, HitPart, BranchPart, LinePart, Labelled;
    var lines := LinePart(cov) + ["end_of_record"];
    var branches := BranchPart(cov) + lines;
    var hits := HitPart(cov) + branches;
    LabelledOne(SF, file, m);
    LabelledOne(End, "", m);
    assert Head(End) + "" == "end_of_record";
    FnsLabelled(cov.fns, m);
    LabelledAppend(LinePart(cov), ["end_of_record"], Head(m));
    LabelledAppend(BranchPart(cov), lines, Head(m));
    LabelledAppend(HitPart(cov), branches, Head(m));
    LabelledAppend(FnLines(cov.fns), hits, Head(m));
    LabelledAppend(["SF:" + file], FnLines(cov.fns) + hits, Head(m));
  }

  // ----- The positive counts -----

  lemma SplitLast(head: string, tail: string)
    requires ',' !in tail
    ensures Text.Last(Text.Split(head + ("," + tail), ',')) == tail
  {
    hide Text.Split;
    Text.SplitBetween(head, tail, ',');
    Text.SplitNone(tail, ',');
    assert head + [','] + tail == head + ("," + tail);
  }

  lemma NumberIsPrinted(cov: Cov, kind: Kind, key: string)
    ensures NumberOn(Rest(cov, kind, key), kind.HitKind?)
      == if kind.BranchKind? && key !in cov.numeric then 0 else Get(CountsOf(cov, kind), key)
  {
    hide Text.Split, Decimals.ParseInt, Decimals.PrintInt, Get, AfterComma;
    var n := Get(CountsOf(cov, kind), key);
    Decimals.PrintIntPlain(n, ',');
    Decimals.ParseIntPrint(n);
    match kind
    case LineKind => SplitLast(key, Decimals.PrintInt(n));
    case HitKind => SplitHeadPart(Decimals.PrintInt(n), AfterComma(key));
    case BranchKind =>
      SplitLast(key, if key in cov.numeric then Decimals.PrintInt(n) else "-");
      DashIsNothing();
  }

  lemma DashIsNothing()
    ensures Decimals.ParseInt("-") == 0
  {
  }

  lemma {:induction false} HitsArePositive(cov: Cov, kind: Kind, keys: seq<string>)
    ensures Hits(Rests(cov, kind, keys), kind.HitKind?) == Positive(cov, kind, keys)
    decreases |keys|
  {
    hide NumberOn, Rest, Get;
    if keys != [] {
      HitsArePositive(cov, kind, keys[..|keys| - 1]);
      NumberIsPrinted(cov, kind, keys[|keys| - 1]);
    }
  }

  // ----- The totals -----

  lemma HitTotals(file: string, cov: Cov)
    ensures Totalled(PrintRecord(file, cov), "FNDA:", "FNF:", "FNH:", true)
  {
    hide PrintRecord, HitPart, BranchPart, LinePart, Labelled, Rests, Hits, Positive, Decimals.Print;
    HitsArePositive(cov, HitKind, cov.hits.order);
    forall m | m == FNDA || m == FNF || m == FNH
      ensures Labelled(PrintRecord(file, cov), Head(m)) == Labelled(HitPart(cov), Head(m))
    {
      RecordLabelled(file, cov, m);
      BranchPartLabelled(cov, m);
      LinePartLabelled(cov, m);
    }
    HitPartLabelled(cov, FNDA);
    HitPartLabelled(cov, FNF);
    HitPartLabelled(cov, FNH);
  }

  lemma LineTotals(file: string, cov: Cov)
    ensures Totalled(PrintRecord(file, cov), "DA:", "LF:", "LH:", false)
  {
    hide PrintRecord, HitPart, BranchPart, LinePart, Labelled, Rests, Hits, Positive, Decimals.Print;
    HitsArePositive(cov, LineKind, cov.lines.order);
    forall m | m == DA || m == LF || m == LH
      ensures Labelled(PrintRecord(file, cov), Head(m)) == Labelled(LinePart(cov), Head(m))
    {
      RecordLabelled(file, cov, m);
      BranchPartLabelled(cov, m);
      HitPartLabelled(cov, m);
    }
    LinePartLabelled(cov, DA);
    LinePartLabelled(cov, LF);
    LinePartLabelled(cov, LH);
  }

  lemma BranchTotals(file: string, cov: Cov)
    ensures var lines := PrintRecord(file, cov);
      if Labelled(lines, "BRDA:") == [] then Labelled(lines, "BRF:") == [] && Labelled(lines, "BRH:") == []
      else Totalled(lines, "BRDA:", "BRF:", "BRH:", false)
  {
    hide PrintRecord, HitPart, BranchPart, LinePart, Labelled, Rests, Hits, Positive, Decimals.Print;
    HitsArePositive(cov, BranchKind, cov.branches.order);
    forall m | m == BRDA || m == BRF || m == BRH
      ensures Labelled(PrintRecord(file, cov), Head(m)) == Labelled(BranchPart(cov), Head(m))
    {
      RecordLabelled(file, cov, m);
      HitPartLabelled(cov, m);
      LinePartLabelled(cov, m);
    }
    BranchPartLabelled(cov, BRDA);
    BranchPartLabelled(cov, BRF);
    BranchPartLabelled(cov, BRH);
  }

  lemma RecordEnds(file: string, cov: Cov)
    ensures var lines := PrintRecord(file, cov);
      && |lines| > 1 && lines[0] == "SF:" + file && lines[|lines| - 1] == "end_of_record"
      && Labelled(lines, "SF:") == [file] && Labelled(lines, "end_of_record") == [""]
  {
    hide HitPart, BranchPart, LinePart, Labelled, FnLines, Rests;
    forall m | m == SF || m == End
      ensures Labelled(PrintRecord(file, cov), Head(m)) == (if m == SF then [file] else [""])
    {
      RecordLabelled(file, cov, m);
      HitPartLabelled(cov, m);
      BranchPartLabelled(cov, m);
      LinePartLabelled(cov, m);
    }
    assert Head(SF) == "SF:" && Head(End) == "end_of_record";
  }

  /** The functions a record lists are those of its file. */
  lemma FunctionsListed(file: string, cov: Cov)
    ensures Labelled(PrintRecord(file, cov), "FN:") == cov.fns
  {
    hide PrintRecord, HitPart, BranchPart, LinePart, Labelled, Rests;
    RecordLabelled(file, cov, FN);
    HitPartLabelled(cov, FN);
    BranchPartLabelled(cov, FN);
    LinePartLabelled(cov, FN);
  }

  /**
    Whatever was counted, the printed lines of a file make a record with right totals: one FNF and one LF line
    say how many FNDA and DA lines there are, one FNH and one LH line how many of these have a positive number,
    and there is one BRF and one BRH line exactly if there is a BRDA line.
   */
  lemma TotalsMatchLines(file: string, cov: Cov)
    ensures IsRecord(PrintRecord(file, cov), file)
  {
    hide PrintRecord, Labelled, Totalled;
    HitTotals(file, cov);
    LineTotals(file, cov);
    BranchTotals(file, cov);
    RecordEnds(file, cov);
  }

  /** The text of a merged report, cut at its line ends, is the records of its files, each with right totals. */
  lemma ReportHasTotals(shards: seq<Option<string>>)
    requires HasReport(shards)
    ensures var files := Merged(shards);
      && Merge(shards).Some?
      && Text.Split(Merge(shards).value, '\n') == (if files.order == [] then [""] else PrintRecords(files, |files.order|)) + [""]
      && forall i :: 0 <= i < |files.order| ==>
        IsRecord(PrintRecord(files.order[i], CovOf(files, files.order[i])), files.order[i])
  {
    hide PrintRecord, IsRecord, CovOf, Text.Split, Text.Join, Merged;
    var files := Merged(shards);
    LcovProper.MergedRead(shards);
    ReportLines(PrintRecords(files, |files.order|));
    forall i | 0 <= i < |files.order|
      ensures IsRecord(PrintRecord(files.order[i], CovOf(files, files.order[i])), files.order[i])
    {
      TotalsMatchLines(files.order[i], CovOf(files, files.order[i]));
    }
    RecordsLong(files, |files.order|);
  }

  lemma RecordsLong(files: Files, n: nat)
    requires n <= |files.order|
    ensures PrintRecords(files, n) == [] <==> n == 0
  {
    hide HitPart, BranchPart, LinePart, FnLines;
  }

  /** There is a merged report if and only if some shard left one. */
  lemma MergesWhatThereIs(shards: seq<Option<string>>)
    ensures Merge(shards) == None <==> forall shard :: shard in shards ==> shard == None
  {
    hide PrintReport, Merged;
    if HasReport(shards) {
      var i :| 0 <= i < |shards| && shards[i].Some?;
      assert shards[i] in shards;
    }
  }
}
