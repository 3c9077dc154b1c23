/**
 Lists of strings printed with a separator and parsed back (`pkg/convkit/convkit.go`).

 Printing puts a backslash before every separator inside an element and joins the elements;
 parsing splits at separators that no backslash precedes.  Texts are sequences of code points.
 */
module ListFormat {
  const ESCAPE: char := '\\'

  /** The escape is one backslash. */
  lemma EscapeIsBackslash()
    ensures [ESCAPE] == "\\" && |"\\"| == 1
  {
  }

  predicate HasSuffix(s: string, suffix: string) {
    |suffix| <= |s| && s[|s| - |suffix|..] == suffix
  }

  function TrimSuffix(s: string, suffix: string): string {
    if HasSuffix(s, suffix) then s[..|s| - |suffix|] else s
  }

  /** Every occurrence from the left, none overlapping. */
  function Replace(s: string, from: string, to: string): string
    requires from != []
    decreases |s|
  {
    if s == [] then []
    else if from <= s then to + Replace(s[|from|..], from, to)
    else [s[0]] + Replace(s[1..], from, to)
  }

  function Join(list: seq<string>, sep: string): string {
    if list == [] then []
    else if |list| == 1 then list[0]
    else Join(list[..|list| - 1], sep) + sep + list[|list| - 1]
  }

  function Escaped(list: seq<string>, sep: string): (r: seq<string>)
    requires sep != []
    ensures |r| == |list| && forall i :: 0 <= i < |list| ==> r[i] == Replace(list[i], sep, [ESCAPE] + sep)
  {
    seq(|list|, i requires 0 <= i < |list| => Replace(list[i], sep, [ESCAPE] + sep))
  }

  function Printed(list: seq<string>, sep: string): string
    requires sep != []
  {
    Join(Escaped(list, sep), sep)
  }

  method Format(list: seq<string>, sep: string) returns (r: string)
    requires sep != []
    ensures r == Printed(list, sep)
  {
    var escSep := [ESCAPE] + sep;
    var out: seq<string> := [];
    for i := 0 to |list|
      invariant out == Escaped(list, sep)[..i]
    {
      out := out + [Replace(list[i], sep, escSep)];
    }
    assert Escaped(list, sep)[..|list|] == Escaped(list, sep);
    r := Join(out, sep);
  }

  /** The elements found so far, and the one being read. */
  datatype Scan = Scan(out: seq<string>, cur: string)

  function Push(st: Scan, sep: string): Scan {
    Scan(st.out + [TrimSuffix(st.cur, sep)], [])
  }

  function Feed(st: Scan, r: char, sep: string): Scan {
    var cur := st.cur + [r];
    var escaped := [ESCAPE] + sep;
    if !HasSuffix(cur, sep) then Scan(st.out, cur)
    else if HasSuffix(cur, escaped) then Scan(st.out, TrimSuffix(cur, escaped) + sep)
    else Push(Scan(st.out, cur), sep)
  }

  function ScanAll(st: Scan, s: string, sep: string): Scan {
    if s == [] then st else Feed(ScanAll(st, s[..|s| - 1], sep), s[|s| - 1], sep)
  }

  const START := Scan([], [])

  function Parsed(s: string, sep: string): seq<string> {
    var st := ScanAll(START, s, sep);
    if st.cur == [] then st.out else Push(st, sep).out
  }

  method Split(s: string, sep: string) returns (out: seq<string>)
    ensures out == Parsed(s, sep)
  {
    out := [];
    var cur: string := [];
    assert s[..0] == [];
    for i := 0 to |s|
      invariant Scan(out, cur) == ScanAll(START, s[..i], sep)
    {
      assert s[..i + 1][..i] == s[..i];
      cur := cur + [s[i]];
      if HasSuffix(cur, sep) {
        var escaped := [ESCAPE] + sep;
        if HasSuffix(cur, escaped) {
          cur := TrimSuffix(cur, escaped) + sep;
        } else {
          cur := TrimSuffix(cur, sep);
          out := out + [cur];
          cur := [];
        }
      }
    }
    assert s[..|s|] == s;
    if 0 < |cur| {
      cur := TrimSuffix(cur, sep);
      out := out + [cur];
    }
  }

  lemma {:induction false} ScanConcat(st: Scan, a: string, b: string, sep: string)
    ensures ScanAll(st, a + b, sep) == ScanAll(ScanAll(st, a, sep), b, sep)
  {
    if b == [] {
      assert a + b == a;
    } else {
      assert (a + b)[..|a + b| - 1] == a + b[..|b| - 1];
      ScanConcat(st, a, b[..|b| - 1], sep);
    }
  }

  predicate Ends(s: string, c: char) {
    s != [] && s[|s| - 1] == c
  }

  lemma ScanOne(st: Scan, c: char, sep: string)
    ensures ScanAll(st, [c], sep) == Feed(st, c, sep)
  {
    assert [c][..0] == [];
  }

  /** What one character does, for a separator of one character. */
  lemma FeedOne(st: Scan, c: char, sep: char)
    requires sep != ESCAPE
    ensures c != sep ==> Feed(st, c, [sep]) == Scan(st.out, st.cur + [c])
    ensures c == sep && Ends(st.cur, ESCAPE) ==> Feed(st, c, [sep]) == Scan(st.out, st.cur[..|st.cur| - 1] + [sep])
    ensures c == sep && !Ends(st.cur, ESCAPE) ==> Feed(st, c, [sep]) == Scan(st.out + [st.cur], [])
  {
    var cur := st.cur + [c];
    assert cur[|cur| - 1..] == [c];
    assert cur[..|cur| - 1] == st.cur;
    if c == sep && st.cur != [] {
      assert cur[|cur| - 2..] == [st.cur[|st.cur| - 1], c];
      assert cur[..|cur| - 2] == st.cur[..|st.cur| - 1];
    }
  }

  lemma ReplaceFirst(e: string, sep: char)
    requires e != []
    ensures var esc := [ESCAPE] + [sep];
      Replace(e, [sep], esc) == (if e[0] == sep then esc else [e[0]]) + Replace(e[1..], [sep], esc)
  {
    assert ([sep] <= e) == (e[0] == sep);
  }

  /** A character of an element, printed and read. */
  lemma ScanCharacter(st: Scan, c: char, sep: char)
    requires sep != ESCAPE
    ensures ScanAll(st, if c == sep then [ESCAPE] + [sep] else [c], [sep]) == Scan(st.out, st.cur + [c])
  {
    hide ScanAll, Feed;
    if c == sep {
      var mid := Scan(st.out, st.cur + [ESCAPE]);
      ScanOne(st, ESCAPE, [sep]);
      FeedOne(st, ESCAPE, sep);
      ScanOne(mid, sep, [sep]);
      FeedOne(mid, sep, sep);
      assert (st.cur + [ESCAPE])[..|st.cur|] == st.cur;
      ScanConcat(st, [ESCAPE], [sep], [sep]);
    } else {
      ScanOne(st, c, [sep]);
      FeedOne(st, c, sep);
    }
  }

  lemma ScanNothing(st: Scan, sep: string)
    ensures ScanAll(st, [], sep) == st
  {
  }

  /** Reading a printed element adds that element to the current one, whatever was there. */
  lemma {:induction false} ScanElement(st: Scan, e: string, sep: char)
    requires sep != ESCAPE
    ensures ScanAll(st, Replace(e, [sep], [ESCAPE] + [sep]), [sep]) == Scan(st.out, st.cur + e)
    decreases |e|
  {
    hide ScanAll;
    if e == [] {
      ScanNothing(st, [sep]);
      assert st.cur + e == st.cur;
    } else {
      ReplaceFirst(e, sep);
      ScanCharacter(st, e[0], sep);
      ScanConcat(st, if e[0] == sep then [ESCAPE] + [sep] else [e[0]], Replace(e[1..], [sep], [ESCAPE] + [sep]), [sep]);
      ScanElement(Scan(st.out, st.cur + [e[0]]), e[1..], sep);
      assert st.cur + [e[0]] + e[1..] == st.cur + e;
    }
  }

  /** The elements that a separator follows must not end in a backslash. */
  predicate Separable(list: seq<string>) {
    forall i :: 0 <= i < |list| - 1 ==> !Ends(list[i], ESCAPE)
  }

  /** How many of the elements before the last end in a backslash. */
  function Merged(list: seq<string>): nat {
    if |list| <= 1 then 0
    else Merged(list[..|list| - 1]) + if Ends(list[|list| - 2], ESCAPE) then 1 else 0
  }

  lemma {:induction false} MergedIff(list: seq<string>)
    ensures Merged(list) == 0 <==> Separable(list)
    ensures Merged(list) <= |list|
  {
    if |list| > 1 {
      var n := |list| - 1;
      MergedIff(list[..n]);
      assert forall i :: 0 <= i < n - 1 ==> list[..n][i] == list[i];
    }
  }

  /** The printed form of a list is that of the others, a separator and the last. */
  lemma PrintedLast(list: seq<string>, sep: char)
    requires |list| > 1
    ensures var n := |list| - 1;
      Printed(list, [sep]) == Printed(list[..n], [sep]) + [sep] + Replace(list[n], [sep], [ESCAPE] + [sep])
  {
    var n := |list| - 1;
    assert Escaped(list, [sep])[..n] == Escaped(list[..n], [sep]);
  }

  /** A separator and one more element, after a state in which an element was being read. */
  lemma ScanNext(st: Scan, e: string, sep: char)
    requires sep != ESCAPE
    ensures ScanAll(st, [sep] + Replace(e, [sep], [ESCAPE] + [sep]), [sep]) ==
      if Ends(st.cur, ESCAPE) then Scan(st.out, st.cur[..|st.cur| - 1] + [sep] + e) else Scan(st.out + [st.cur], e)
  {
    hide ScanAll, Feed;
    ScanOne(st, sep, [sep]);
    FeedOne(st, sep, sep);
    ScanConcat(st, [sep], Replace(e, [sep], [ESCAPE] + [sep]), [sep]);
    ScanElement(Feed(st, sep, [sep]), e, sep);
    assert [] + e == e;
  }

  /** Where the parser stands after a printed list: its last element is still being read. */
  lemma {:induction false} ScanPrinted(list: seq<string>, sep: char)
    requires sep != ESCAPE && list != []
    ensures var st := ScanAll(START, Printed(list, [sep]), [sep]);
      && |st.out| + Merged(list) <= |list| - 1
      && HasSuffix(st.cur, list[|list| - 1])
      && (Separable(list) ==> st == Scan(list[..|list| - 1], list[|list| - 1]))
  {
    hide ScanAll, Feed, Replace;
    var n := |list| - 1;
    var last := Replace(list[n], [sep], [ESCAPE] + [sep]);
    if n == 0 {
      assert Printed(list, [sep]) == last;
      ScanElement(START, list[0], sep);
      assert [] + list[0] == list[0];
    } else {
      hide Printed;
      var rest := list[..n];
      ScanPrinted(rest, sep);
      PrintedLast(list, sep);
      var text := Printed(rest, [sep]);
      var st := ScanAll(START, text, [sep]);
      assert text + [sep] + last == text + ([sep] + last);
      ScanConcat(START, text, [sep] + last, [sep]);
      ScanNext(st, list[n], sep);
      assert Ends(list[n - 1], ESCAPE) ==> Ends(st.cur, ESCAPE);
      if Separable(list) {
        assert Separable(rest);
        assert list[n - 1] == rest[n - 1] && !Ends(list[n - 1], ESCAPE);
        assert rest[..n - 1] + [rest[n - 1]] == list[..n];
      }
    }
  }

  /**
   With a separator of one character that is not the backslash, parsing what was printed
   gives the list back exactly when no element but the last ends in a backslash and the last
   one is neither empty nor ends in the separator.
   */
  lemma RoundTrip(list: seq<string>, sep: char)
    requires sep != ESCAPE
    ensures Parsed(Printed(list, [sep]), [sep]) == list <==>
      list == [] || (Separable(list) && list[|list| - 1] != [] && !Ends(list[|list| - 1], sep))
  {
    hide ScanAll, Separable, Merged, TrimSuffix, Ends, HasSuffix;
    if list == [] {
      assert Printed(list, [sep]) == [];
      ScanNothing(START, [sep]);
    } else {
      MergedIff(list);
      ScanPrinted(list, sep);
      if Separable(list) {
        SeparableResult(list, sep);
      }
    }
  }

  lemma SeparableResult(list: seq<string>, sep: char)
    requires sep != ESCAPE && list != [] && Separable(list)
    ensures Parsed(Printed(list, [sep]), [sep]) == list <==> list[|list| - 1] != [] && !Ends(list[|list| - 1], sep)
  {
    hide ScanAll, Printed, TrimSuffix, Ends;
    ScanPrinted(list, sep);
    var n := |list| - 1;
    var last := TrimSuffix(list[n], [sep]);
    LastTrimmed(list[n], sep);
    assert list == list[..n] + [list[n]];
    assert (list[..n] + [last])[n] == last;
  }

  lemma LastTrimmed(e: string, sep: char)
    ensures TrimSuffix(e, [sep]) == e <==> !Ends(e, sep)
    ensures Ends(e, sep) ==> |TrimSuffix(e, [sep])| < |e|
  {
    if e != [] {
      assert e[|e| - 1..] == [e[|e| - 1]];
    }
  }

  /** What is lost otherwise: one element for each backslash before a separator, at least. */
  lemma NeverMore(list: seq<string>, sep: char)
    requires sep != ESCAPE && list != []
    ensures |Parsed(Printed(list, [sep]), [sep])| + Merged(list) <= |list|
  {
    ScanPrinted(list, sep);
  }

  method PrintAndParse(list: seq<string>, sep: char) returns (back: seq<string>)
    requires sep != ESCAPE
    ensures back == list <==>
      list == [] || (Separable(list) && list[|list| - 1] != [] && !Ends(list[|list| - 1], sep))
  {
    var text := Format(list, [sep]);
    back := Split(text, [sep]);
    RoundTrip(list, sep);
  }
}
