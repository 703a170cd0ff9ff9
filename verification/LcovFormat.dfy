/** How a merge reads the lines of any coverage tool, whatever follows the fields it uses. */
module LcovFormat {
  import opened Options
  import opened Lcov
  import opened LcovReading
  import Text
  import Decimals

  /** Nothing more, or further fields. */
  predicate Ending(tail: string) {
    tail == "" || tail[0] == ','
  }

  lemma FirstField(field: string, tail: string)
    requires ',' !in field && Ending(tail)
    ensures Text.Split(field + tail, ',')[0] == field
  {
    hide Text.Split;
    if tail == "" {
      Text.SplitNone(field, ',');
      assert field + tail == field;
    } else {
      SplitHeadPart(field, tail[1..]);
      assert tail == "," + tail[1..];
    }
  }

  lemma NextField(field: string, rest: string)
    requires ',' !in field
    ensures Text.Split(field + ("," + rest), ',') == [field] + Text.Split(rest, ',')
  {
    hide Text.Split;
    Text.SplitFirst(field, rest, ',');
    assert field + ("," + rest) == field + [','] + rest;
  }

  /** A line count: the line, its count, and perhaps a checksum. */
  lemma LineCountRead(r: Reader, file: string, line: string, count: string, tail: string)
    requires r.cur == Some(file) && ',' !in line && ',' !in count && Ending(tail)
    ensures var raw := "DA:" + (line + ("," + (count + tail)));
      EventOf(r, raw) == Some(Count(LineKind, file, line, Some(Decimals.ParseInt(count)))) && NextReader(r, raw) == r
  {
    hide Text.StartsWith, Text.Split, Decimals.ParseInt, Ending;
    var rest := line + ("," + (count + tail));
    IsPrefix("DA:", rest);
    NotPrefix("DA:", rest, "SF:", 0);
    NextField(line, count + tail);
    FirstField(count, tail);
  }

  /** A function count: it goes to the function at its position in the file's part, and only without one to its own name. */
  lemma FunctionCountRead(r: Reader, file: string, count: string, name: string)
    requires r.cur == Some(file) && ',' !in count
    ensures var raw := "FNDA:" + (count + ("," + name));
      && EventOf(r, raw)
         == Some(Count(HitKind, file, if r.index < |r.fns| then r.fns[r.index] else name, Some(Decimals.ParseInt(count))))
      && NextReader(r, raw) == r.(index := r.index + 1)
  {
    hide Text.StartsWith, Text.Split, Decimals.ParseInt, AfterComma;
    var rest := count + ("," + name);
    IsPrefix("FNDA:", rest);
    NotPrefix("FNDA:", rest, "SF:", 0);
    NotPrefix("FNDA:", rest, "DA:", 0);
    NotPrefix("FNDA:", rest, "FN:", 2);
    SplitHeadPart(count, name);
    AfterCommaIs(count, name);
  }

  /** A branch count: line, block and branch make its key; a "-" is no number, whatever else it is parsed. */
  lemma BranchCountRead(r: Reader, file: string, line: string, block: string, branch: string, taken: string, tail: string)
    requires r.cur == Some(file) && ',' !in line && ',' !in block && ',' !in branch && ',' !in taken && Ending(tail)
    ensures var key := line + ("," + (block + ("," + branch)));
      var raw := "BRDA:" + (line + ("," + (block + ("," + (branch + ("," + (taken + tail)))))));
      && EventOf(r, raw)
         == Some(Count(BranchKind, file, key, if taken == "-" then None else Some(Decimals.ParseInt(taken))))
      && NextReader(r, raw) == r
  {
    hide Text.StartsWith, Text.Split, Decimals.ParseInt, Ending;
    var rest := line + ("," + (block + ("," + (branch + ("," + (taken + tail))))));
    IsPrefix("BRDA:", rest);
    NotPrefix("BRDA:", rest, "SF:", 0);
    NotPrefix("BRDA:", rest, "DA:", 0);
    NotPrefix("BRDA:", rest, "FN:", 0);
    NotPrefix("BRDA:", rest, "FNDA:", 0);
    NextField(line, block + ("," + (branch + ("," + (taken + tail)))));
    NextField(block, branch + ("," + (taken + tail)));
    NextField(branch, taken + tail);
    FirstField(taken, tail);
  }

  /** A file line begins a part of its own, wherever it stands; before the first one nothing is read. */
  lemma FileRead(r: Reader, file: string, raw: string)
    ensures EventOf(r, "SF:" + file) == Some(File(file)) && NextReader(r, "SF:" + file) == Reader(Some(file), [], 0)
    ensures r.cur == None && !Text.StartsWith(raw, "SF:") ==> EventOf(r, raw) == None && NextReader(r, raw) == r
  {
    hide Text.StartsWith;
    ReadFile(r, file);
  }

  /** A line that begins with none of the five labels says nothing. */
  lemma OtherLineIgnored(r: Reader, raw: string)
    requires !Text.StartsWith(raw, "SF:") && !Text.StartsWith(raw, "FN:") && !Text.StartsWith(raw, "FNDA:")
    requires !Text.StartsWith(raw, "DA:") && !Text.StartsWith(raw, "BRDA:")
    ensures EventOf(r, raw) == None && NextReader(r, raw) == r
  {
  }

  /** A number is its digits, after white space and a sign, whatever follows; without digits it counts nothing. */
  lemma NumberRead(space: string, digits: string, tail: string)
    requires Text.AllSpace(space) && Decimals.AllDigits(digits) && (tail == "" || !Decimals.IsDigit(tail[0]))
    requires digits == "" ==> tail == "" || !(Text.IsSpace(tail[0]) || tail[0] == '-' || tail[0] == '+')
    ensures Decimals.ParseInt(space + (digits + tail)) == Decimals.Value(digits)
    ensures Decimals.ParseInt(space + ("-" + (digits + tail))) == -(Decimals.Value(digits) as int)
    ensures Decimals.ParseInt(space + ("+" + (digits + tail))) == Decimals.Value(digits)
  {
    hide Decimals.Value, Decimals.Leading, Text.IsSpace, Text.TrimStart;
    Decimals.LeadingIs(digits, tail);
    if digits != "" {
      assert (digits + tail)[0] == digits[0] && Decimals.IsDigit(digits[0]);
      DigitIsNoSpace(digits[0]);
    } else {
      assert digits + tail == tail;
    }
    SpaceSkipped(space, digits + tail);
    SignIsNoSpace();
    SpaceSkipped(space, "-" + (digits + tail));
    SpaceSkipped(space, "+" + (digits + tail));
    assert ("-" + (digits + tail))[1..] == digits + tail && ("+" + (digits + tail))[1..] == digits + tail;
  }

  lemma DigitIsNoSpace(c: char)
    requires Decimals.IsDigit(c)
    ensures !Text.IsSpace(c)
  {
  }

  lemma SignIsNoSpace()
    ensures !Text.IsSpace('-') && !Text.IsSpace('+')
  {
  }

  lemma {:induction false} SpaceSkipped(space: string, rest: string)
    requires Text.AllSpace(space) && (rest == "" || !Text.IsSpace(rest[0]))
    ensures Text.TrimStart(space + rest) == rest
    decreases |space|
  {
    hide Text.IsSpace;
    if space == "" {
      assert space + rest == rest;
    } else {
      assert space[0] in space && (space + rest)[1..] == space[1..] + rest;
      SpaceSkipped(space[1..], rest);
    }
  }
}
