/** Strings cut at a separator character, as JavaScript's `split` and `join` do it. */
module Text {

  /** The pieces of `s` between the separators: one more than there are separators. */
  function Split(s: string, sep: char): (pieces: seq<string>)
    ensures pieces != []
  {
    if s == [] then [""]
    else
      var rest := Split(s[1..], sep);
      if s[0] == sep then [""] + rest else Prepend(s[0], rest)
  }

  /** `c` put in front of the first piece. */
  function Prepend(c: char, pieces: seq<string>): (r: seq<string>)
    requires pieces != []
    ensures |r| == |pieces| && r[0] == [c] + pieces[0] && r[1..] == pieces[1..]
  {
    [[c] + pieces[0]] + pieces[1..]
  }

  function Join(pieces: seq<string>, sep: string): string {
    if pieces == [] then ""
    else if |pieces| == 1 then pieces[0]
    else pieces[0] + sep + Join(pieces[1..], sep)
  }

  function Concat(parts: seq<string>): string
    decreases |parts|
  {
    if parts == [] then "" else Concat(parts[..|parts| - 1]) + parts[|parts| - 1]
  }

  function Last<T>(s: seq<T>): T
    requires s != []
  {
    s[|s| - 1]
  }

  function Front<T>(s: seq<T>): seq<T>
    requires s != []
  {
    s[..|s| - 1]
  }

  /** Two concatenations whose parts are no longer than the other's agree exactly part by part. */
  lemma SameParts<T>(a: seq<T>, b: seq<T>, a': seq<T>, b': seq<T>)
    requires |a| <= |a'| && |b| <= |b'|
    ensures a + b == a' + b' <==> a == a' && b == b'
  {
    if a + b == a' + b' {
      assert |a + b| == |a' + b'|;
      assert a == (a + b)[..|a|] && b == (a + b)[|a|..];
    }
  }

  lemma {:induction false} SplitNone(s: string, sep: char)
    requires sep !in s
    ensures Split(s, sep) == [s]
  {
    if s != [] {
      SplitNone(s[1..], sep);
      assert s == [s[0]] + s[1..];
    }
  }

  /** The pieces contain no separator. */
  lemma {:induction false} SplitPieces(s: string, sep: char)
    ensures forall i :: 0 <= i < |Split(s, sep)| ==> sep !in Split(s, sep)[i]
  {
    if s != [] {
      SplitPieces(s[1..], sep);
    }
  }

  /** The pieces have no characters of their own. */
  lemma {:induction false} SplitChars(s: string, sep: char, c: char)
    requires c !in s
    ensures forall i :: 0 <= i < |Split(s, sep)| ==> c !in Split(s, sep)[i]
  {
    if s != [] {
      SplitChars(s[1..], sep, c);
    }
  }

  /** Cutting a longer text continues the last piece of a shorter one. */
  lemma {:induction false} SplitAppend(a: string, b: string, sep: char)
    ensures Split(a + b, sep) == Front(Split(a, sep)) + Split(Last(Split(a, sep)) + b, sep)
  {
    if a == [] {
      assert a + b == b;
      assert Last([""]) + b == b;
    } else {
      SplitAppend(a[1..], b, sep);
      assert (a + b)[1..] == a[1..] + b;
      SplitAppendStep(a[0], Split(a[1..], sep), b, sep);
    }
  }

  lemma SplitAppendStep(c: char, rest: seq<string>, b: string, sep: char)
    requires rest != []
    ensures c == sep ==>
      [""] + (Front(rest) + Split(Last(rest) + b, sep)) == Front([""] + rest) + Split(Last([""] + rest) + b, sep)
    ensures c != sep ==>
      Prepend(c, Front(rest) + Split(Last(rest) + b, sep))
      == Front(Prepend(c, rest)) + Split(Last(Prepend(c, rest)) + b, sep)
  {
    if c == sep {
      assert Front([""] + rest) == [""] + Front(rest);
      assert Last([""] + rest) == Last(rest);
    } else if |rest| == 1 {
      var longer := [c] + (rest[0] + b);
      assert Last(Prepend(c, rest)) + b == longer;
      assert longer[1..] == rest[0] + b;
      assert Front(rest) + Split(Last(rest) + b, sep) == Split(rest[0] + b, sep);
    } else {
      assert Last(Prepend(c, rest)) == Last(rest);
      assert Front(Prepend(c, rest)) == Prepend(c, Front(rest));
    }
  }

  /** The first separator cuts off the first piece. */
  lemma SplitFirst(head: string, tail: string, sep: char)
    requires sep !in head
    ensures Split(head + [sep] + tail, sep) == [head] + Split(tail, sep)
  {
    SplitNone(head, sep);
    assert head + [sep] + tail == head + ([sep] + tail);
    SplitAppend(head, [sep] + tail, sep);
    SplitHead(head, tail, sep);
  }

  lemma {:induction false} SplitHead(head: string, tail: string, sep: char)
    requires sep !in head
    ensures Split(head + ([sep] + tail), sep) == [head] + Split(tail, sep)
  {
    if head == [] {
      assert head + ([sep] + tail) == [sep] + tail;
      assert ([sep] + tail)[1..] == tail;
    } else {
      SplitHead(head[1..], tail, sep);
      assert (head + ([sep] + tail))[1..] == head[1..] + ([sep] + tail);
      assert head == [head[0]] + head[1..];
    }
  }

  /** A text around a separator has the pieces of both sides. */
  lemma SplitBetween(a: string, b: string, sep: char)
    ensures Split(a + [sep] + b, sep) == Split(a, sep) + Split(b, sep)
  {
    hide Split;
    var last := Last(Split(a, sep));
    SplitPieces(a, sep);
    assert sep !in last;
    SplitAppend(a, [sep] + b, sep);
    SplitFirst(last, b, sep);
    assert a + [sep] + b == a + ([sep] + b);
    assert last + [sep] + b == last + ([sep] + b);
    assert Front(Split(a, sep)) + [last] == Split(a, sep);
  }

  /** Joining pieces without separators and cutting the text again gives the pieces back. */
  lemma {:induction false} SplitJoin(pieces: seq<string>, sep: char)
    requires pieces != []
    requires forall i :: 0 <= i < |pieces| ==> sep !in pieces[i]
    ensures Split(Join(pieces, [sep]), sep) == pieces
  {
    if |pieces| == 1 {
      SplitNone(pieces[0], sep);
    } else {
      SplitJoin(pieces[1..], sep);
      SplitFirst(pieces[0], Join(pieces[1..], [sep]), sep);
    }
  }

  /** Cutting a text and joining its pieces gives the text back. */
  lemma {:induction false} JoinSplit(s: string, sep: char)
    ensures Join(Split(s, sep), [sep]) == s
  {
    if s != [] {
      var rest := Split(s[1..], sep);
      JoinSplit(s[1..], sep);
      assert s == [s[0]] + s[1..];
      if s[0] == sep {
        assert ([""] + rest)[1..] == rest;
      } else {
        JoinPrepend(s[0], rest, [sep]);
      }
    }
  }

  lemma JoinPrepend(c: char, pieces: seq<string>, sep: string)
    requires pieces != []
    ensures Join(Prepend(c, pieces), sep) == [c] + Join(pieces, sep)
  {
    assert Prepend(c, pieces)[1..] == pieces[1..];
    assert [c] + pieces[0] + sep + Join(pieces[1..], sep) == [c] + (pieces[0] + sep + Join(pieces[1..], sep));
  }

  /** The position of the first `c` in `s`; `|s|` when there is none. */
  function IndexOf(s: string, c: char): (n: nat)
    ensures n <= |s|
    ensures n < |s| ==> s[n] == c
    ensures c !in s[..n]
    ensures n == |s| <==> c !in s
  {
    if s == [] then 0
    else if s[0] == c then 0
    else
      assert s == [s[0]] + s[1..];
      var n := IndexOf(s[1..], c);
      assert s[..n + 1] == [s[0]] + s[1..][..n];
      n + 1
  }

  lemma {:induction false} IndexOfFirst(head: string, tail: string, c: char)
    requires c !in head
    ensures IndexOf(head + ([c] + tail), c) == |head|
  {
    if head != [] {
      assert head == [head[0]] + head[1..];
      IndexOfFirst(head[1..], tail, c);
      assert (head + ([c] + tail))[1..] == head[1..] + ([c] + tail);
    } else {
      assert head + ([c] + tail) == [c] + tail;
    }
  }

  predicate StartsWith(s: string, prefix: string): (yes: bool)
    ensures yes ==> |prefix| <= |s|
  {
    |prefix| <= |s| && s[..|prefix|] == prefix
  }

  /** JavaScript's white space and line terminators, which `trim` removes. */
  predicate IsSpace(c: char) {
    || c in "\t\n\r \U{000B}\U{000C}\U{00A0}\U{1680}\U{2028}\U{2029}\U{202F}\U{205F}\U{3000}\U{FEFF}"
    || '\U{2000}' <= c <= '\U{200A}'
  }

  function TrimStart(s: string): string {
    if s != [] && IsSpace(s[0]) then TrimStart(s[1..]) else s
  }

  function TrimEnd(s: string): string {
    if s != [] && IsSpace(s[|s| - 1]) then TrimEnd(s[..|s| - 1]) else s
  }

  function Trim(s: string): string {
    TrimEnd(TrimStart(s))
  }

  predicate AllSpace(s: string) {
    forall c :: c in s ==> IsSpace(c)
  }

  lemma {:induction false} TrimStartEnds(s: string) returns (lead: string)
    ensures s == lead + TrimStart(s) && AllSpace(lead)
    ensures TrimStart(s) != "" ==> !IsSpace(TrimStart(s)[0])
    decreases |s|
  {
    hide IsSpace;
    lead := "";
    if s != [] && IsSpace(s[0]) {
      lead := TrimStartEnds(s[1..]);
      lead := [s[0]] + lead;
    }
  }

  lemma {:induction false} TrimEndEnds(s: string) returns (trail: string)
    ensures s == TrimEnd(s) + trail && AllSpace(trail)
    ensures TrimEnd(s) != "" ==> !IsSpace(TrimEnd(s)[|TrimEnd(s)| - 1])
    decreases |s|
  {
    hide IsSpace;
    trail := "";
    if s != [] && IsSpace(s[|s| - 1]) {
      trail := TrimEndEnds(s[..|s| - 1]);
      trail := trail + [s[|s| - 1]];
    }
  }

  /** No white space at either end. */
  predicate Bare(s: string) {
    s == "" || (!IsSpace(s[0]) && !IsSpace(s[|s| - 1]))
  }

  /** Trimming cuts white space off both ends, and leaves none there. */
  lemma TrimIsBare(s: string) returns (lead: string, trail: string)
    ensures s == lead + Trim(s) + trail && AllSpace(lead) && AllSpace(trail) && Bare(Trim(s))
  {
    hide IsSpace, AllSpace, TrimStart, TrimEnd;
    lead := TrimStartEnds(s);
    trail := TrimEndEnds(TrimStart(s));
    assert lead + (Trim(s) + trail) == lead + Trim(s) + trail;
  }

  lemma TrimBare(s: string)
    requires Bare(s)
    ensures Trim(s) == s
  {
  }

  lemma TrimTwice(s: string)
    ensures Trim(Trim(s)) == Trim(s)
  {
    var _, _ := TrimIsBare(s);
    TrimBare(Trim(s));
  }
}
