/** Which lines the diff parser takes for a hunk header, and which number it reads there. */
module UnifiedDiffHeaders {
  import opened Options
  import opened UnifiedDiffs
  import Text
  import Decimals

  /** A number, as long as it goes. */
  predicate IsNumber(s: string) {
    s != "" && Decimals.AllDigits(s)
  }

  /** Nothing, or a comma and a number. */
  predicate IsCount(s: string) {
    s == "" || (s[0] == ',' && IsNumber(s[1..]))
  }

  /** The parts of a hunk header: the two ranges, each a number and perhaps a count, and whatever follows. */
  datatype Header = Header(oldStart: string, oldCount: string, newStart: string, newCount: string, section: string)

  predicate Proper(h: Header) {
    IsNumber(h.oldStart) && IsCount(h.oldCount) && IsNumber(h.newStart) && IsCount(h.newCount)
  }

  /** The line of a header. */
  function Written(h: Header): string {
    "@@ -" + (h.oldStart + (h.oldCount + (" +" + (h.newStart + (h.newCount + (" @@" + h.section))))))
  }

  lemma CountRead(count: string, rest: string)
    requires IsCount(count) && rest != "" && !Decimals.IsDigit(rest[0]) && rest[0] != ','
    ensures count + rest != "" && !Decimals.IsDigit((count + rest)[0]) && SkipCount(count + rest) == rest
  {
    hide Decimals.Leading;
    if count == "" {
      assert count + rest == rest;
    } else {
      Decimals.LeadingIs(count[1..], rest);
      assert (count + rest)[1..] == count[1..] + rest;
      assert (count + rest)[|count|..] == rest;
    }
  }

  lemma RangeRead(prefix: string, start: string, count: string, rest: string)
    requires IsNumber(start) && IsCount(count) && rest != "" && !Decimals.IsDigit(rest[0]) && rest[0] != ','
    ensures Range(prefix + (start + (count + rest)), prefix) == Some((Decimals.Value(start), rest))
  {
    hide Range, SkipCount, IsCount, Decimals.Value;
    CountRead(count, rest);
    RangeIs(prefix, start, count + rest);
  }

  /** What is skipped is a count. */
  lemma SkippedIsCount(s: string) returns (count: string)
    ensures IsCount(count) && s == count + SkipCount(s)
  {
    hide Decimals.Leading;
    if s != "" && s[0] == ',' && Decimals.Leading(s[1..]) != [] {
      var digits := Decimals.Leading(s[1..]);
      count := [','] + digits;
      assert s == [s[0]] + s[1..];
      assert s[1..][..|digits|] == digits;
    } else {
      count := "";
    }
  }

  lemma RangeShape(s: string, prefix: string) returns (start: string, count: string)
    requires Range(s, prefix).Some?
    ensures IsNumber(start) && IsCount(count) && Range(s, prefix).value.0 == Decimals.Value(start)
    ensures s == prefix + (start + (count + Range(s, prefix).value.1))
  {
    hide IsCount, SkipCount, Decimals.Value;
    start := Decimals.Leading(s[|prefix|..]);
    count := SkippedIsCount(s[|prefix| + |start|..]);
    assert s == prefix + s[|prefix|..];
    assert s[|prefix|..][|start|..] == s[|prefix| + |start|..];
    assert s[|prefix|..] == start + s[|prefix| + |start|..];
  }

  /** A line is read as a header exactly if it has this form, and the number read is that of its new range. */
  lemma HeaderIsRead(h: Header)
    requires Proper(h)
    ensures HunkStart(Written(h)) == Some(Decimals.Value(h.newStart))
  {
    hide Range, IsNumber, IsCount, Decimals.Value;
    var tail := " @@" + h.section;
    var rest := " +" + (h.newStart + (h.newCount + tail));
    RangeRead("@@ -", h.oldStart, h.oldCount, rest);
    RangeRead(" +", h.newStart, h.newCount, tail);
  }

  lemma ReadIsHeader(raw: string) returns (h: Header)
    requires HunkStart(raw).Some?
    ensures Proper(h) && raw == Written(h)
  {
    hide Range, IsNumber, IsCount, Decimals.Value;
    var rest := Range(raw, "@@ -").value.1;
    var tail := Range(rest, " +").value.1;
    var a, ac := RangeShape(raw, "@@ -");
    var b, bc := RangeShape(rest, " +");
    h := Header(a, ac, b, bc, tail[3..]);
    assert tail == " @@" + tail[3..];
  }

  /** A hunk header sets the line number, and any other line that begins like one changes nothing. */
  lemma HeaderOrNothing(s: Parser, raw: string)
    requires Text.StartsWith(raw, "@@")
    ensures if exists h :: Proper(h) && raw == Written(h)
      then forall h :: Proper(h) && raw == Written(h) ==> Step(s, raw) == s.(newLine := Decimals.Value(h.newStart))
      else Step(s, raw) == s
  {
    hide HunkStart, IsCount, Written, Decimals.Value;
    assert raw[0] == raw[..2][0] == '@';
    assert |raw| >= 4 ==> raw[..4][0] == '@';
    forall h | Proper(h) && raw == Written(h) ensures HunkStart(raw) == Some(Decimals.Value(h.newStart)) {
      HeaderIsRead(h);
    }
    if HunkStart(raw).Some? {
      var h := ReadIsHeader(raw);
      assert Proper(h) && raw == Written(h);
    }
  }
}
