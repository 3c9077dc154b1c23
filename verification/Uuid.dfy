/**
 UUIDs and the time-ordered version 7 (`pkg/uuid/uuid.go`, `pkg/uuid/uuidv7.go`).

 Bytes are numbers below 256; masks and shifts are written as remainders and quotients by
 powers of two.  A UUID is a value of 16 bytes, and an array of them while it is being made.
 */
module Uuids {
  import opened Common

  type Byte = x: int | 0 <= x < 256

  type UUID = u: seq<Byte> | |u| == 16 witness seq(16, _ => 0)

  // ---------------------------------------------------------------- order

  /** Byte order: the first difference decides. */
  predicate LexLess(a: seq<Byte>, b: seq<Byte>)
    requires |a| == |b|
  {
    a != [] && (a[0] < b[0] || (a[0] == b[0] && LexLess(a[1..], b[1..])))
  }

  /** The bytes as one number, the first byte the most significant. */
  function Number(a: seq<Byte>): nat {
    if a == [] then 0 else 256 * Number(a[..|a| - 1]) + a[|a| - 1]
  }

  function Power(n: nat): nat {
    if n == 0 then 1 else 256 * Power(n - 1)
  }

  lemma {:induction false} NumberFirst(a: seq<Byte>)
    requires a != []
    ensures Number(a) == a[0] * Power(|a| - 1) + Number(a[1..]) && Number(a[1..]) < Power(|a| - 1)
  {
    var n := |a| - 1;
    if n == 0 {
      assert a[..0] == [] && a[1..] == [];
    } else {
      NumberFirst(a[..n]);
      assert a[..n][1..] == a[1..][..n - 1];
      assert a[1..][n - 1] == a[n];
    }
  }

  /** Byte order is the order of the numbers. */
  lemma {:induction false} LexIsNumeric(a: seq<Byte>, b: seq<Byte>)
    requires |a| == |b|
    ensures LexLess(a, b) <==> Number(a) < Number(b)
    ensures Number(a) == Number(b) ==> a == b
  {
    if a != [] {
      LexIsNumeric(a[1..], b[1..]);
      NumberFirst(a);
      NumberFirst(b);
      FirstDecides(a[0], b[0], Number(a[1..]), Number(b[1..]), Power(|a| - 1));
      assert a == [a[0]] + a[1..] && b == [b[0]] + b[1..];
    }
  }

  lemma FirstDecides(x: int, y: int, r: nat, s: nat, p: nat)
    requires r < p && s < p
    ensures x * p + r < y * p + s <==> x < y || (x == y && r < s)
    ensures x * p + r == y * p + s ==> x == y && r == s
  {
    if x < y {
      Further(x, y, p);
    } else if y < x {
      Further(y, x, p);
    }
  }

  lemma Further(x: int, y: int, p: nat)
    requires x < y
    ensures x * p + p <= y * p
  {
    Times(x, y - x, p);
    Times(1, y - x - 1, p);
  }

  lemma {:induction false} Times(x: int, d: nat, p: nat)
    ensures (x + d) * p == x * p + d * p && 0 <= d * p
  {
  }

  /** A common length of first part decides before the rest does. */
  lemma {:induction false} LexConcat(a: seq<Byte>, b: seq<Byte>, c: seq<Byte>, d: seq<Byte>)
    requires |a| == |c| && |b| == |d|
    ensures LexLess(a + b, c + d) <==> LexLess(a, c) || (a == c && LexLess(b, d))
  {
    if a == [] {
      assert a + b == b && c + d == d;
    } else {
      assert (a + b)[1..] == a[1..] + b && (c + d)[1..] == c[1..] + d;
      LexConcat(a[1..], b, c[1..], d);
      assert a == [a[0]] + a[1..] && c == [c[0]] + c[1..];
    }
  }

  lemma {:induction false} LexAt(a: seq<Byte>, b: seq<Byte>, i: nat)
    requires |a| == |b| && i < |a| && a[..i] == b[..i] && a[i] != b[i]
    ensures LexLess(a, b) <==> a[i] < b[i]
  {
    if i > 0 {
      assert a[0] == a[..i][0] && b[0] == b[..i][0];
      assert a[1..][..i - 1] == a[..i][1..] && b[1..][..i - 1] == b[..i][1..];
      LexAt(a[1..], b[1..], i - 1);
    }
  }

  method Compare(u: UUID, o: UUID) returns (r: int)
    ensures r == if Number(u) < Number(o) then -1 else if Number(u) == Number(o) then 0 else 1
    ensures r == 0 <==> u == o
  {
    LexIsNumeric(u, o);
    LexIsNumeric(o, u);
    for i := 0 to 16
      invariant u[..i] == o[..i]
    {
      if u[i] < o[i] {
        LexAt(u, o, i);
        return -1;
      }
      if u[i] > o[i] {
        LexAt(o, u, i);
        return 1;
      }
    }
    assert u[..16] == u && o[..16] == o;
    return 0;
  }

  method Less(u: UUID, oth: UUID) returns (r: bool)
    ensures r == (Number(u) < Number(oth))
  {
    LexIsNumeric(u, oth);
    for i := 0 to 16
      invariant u[..i] == oth[..i]
    {
      if u[i] != oth[i] {
        LexAt(u, oth, i);
        return u[i] < oth[i];
      }
    }
    assert u[..16] == u && oth[..16] == oth;
    return false;
  }

  method Equal(u: UUID, oth: UUID) returns (r: bool)
    ensures r == (Number(u) == Number(oth)) == (u == oth)
  {
    LexIsNumeric(u, oth);
    for i := 0 to 16
      invariant u[..i] == oth[..i]
    {
      if u[i] != oth[i] {
        return false;
      }
    }
    assert u[..16] == u && oth[..16] == oth;
    return true;
  }

  // ---------------------------------------------------------------- text

  const DIGITS := "0123456789abcdef"

  function HexByte(b: Byte): string {
    [DIGITS[b / 16], DIGITS[b % 16]]
  }

  function Hex(u: seq<Byte>): string {
    if u == [] then [] else Hex(u[..|u| - 1]) + HexByte(u[|u| - 1])
  }

  function String(u: UUID): string {
    Hex(u[..4]) + "-" + Hex(u[4..6]) + "-" + Hex(u[6..8]) + "-" + Hex(u[8..10]) + "-" + Hex(u[10..])
  }

  function Digit(c: char): Option<nat> {
    if '0' <= c <= '9' then Some(c as int - '0' as int)
    else if 'a' <= c <= 'f' then Some(c as int - 'a' as int + 10)
    else if 'A' <= c <= 'F' then Some(c as int - 'A' as int + 10)
    else None
  }

  predicate IsSpace(c: char) {
    '\t' <= c <= '\r' || c == ' ' || c == '\U{85}' || c == '\U{A0}' || c == '\U{1680}' ||
    '\U{2000}' <= c <= '\U{200A}' ||
    c == '\U{2028}' || c == '\U{2029}' || c == '\U{202F}' || c == '\U{205F}' || c == '\U{3000}'
  }

  function TrimSpace(s: string): string
    decreases |s|
  {
    if s == [] then []
    else if IsSpace(s[0]) then TrimSpace(s[1..])
    else if IsSpace(s[|s| - 1]) then TrimSpace(s[..|s| - 1])
    else s
  }

  function WithoutHyphens(s: string): string {
    if s == [] then []
    else WithoutHyphens(s[..|s| - 1]) + if s[|s| - 1] == '-' then [] else [s[|s| - 1]]
  }

  /** What Parse looks at: the text without surrounding space and without hyphens. */
  function Bare(raw: string): string {
    WithoutHyphens(TrimSpace(raw))
  }

  predicate AllDigits(s: string) {
    forall i :: 0 <= i < |s| ==> Digit(s[i]).Some?
  }

  function DigitValue(c: char): nat
    requires Digit(c).Some?
    ensures DigitValue(c) < 16
  {
    Digit(c).value
  }

  /** Accepts exactly the texts of 32 hexadecimal digits, and reads each pair as a byte. */
  method Parse(raw: string) returns (r: Option<UUID>)
    ensures r.Some? <==> |Bare(raw)| == 32 && AllDigits(Bare(raw))
    ensures r.Some? ==> forall i :: 0 <= i < 16 ==>
      r.value[i] == 16 * DigitValue(Bare(raw)[2 * i]) + DigitValue(Bare(raw)[2 * i + 1])
  {
    var bare := WithoutHyphens(TrimSpace(raw));
    if |bare| != 32 {
      return None;
    }
    var u := new Byte[16](_ => 0);
    for i := 0 to 16
      invariant forall k :: 0 <= k < 2 * i ==> Digit(bare[k]).Some?
      invariant forall k :: 0 <= k < i ==> u[k] == 16 * DigitValue(bare[2 * k]) + DigitValue(bare[2 * k + 1])
    {
      var high, low := Digit(bare[2 * i]), Digit(bare[2 * i + 1]);
      if high.None? || low.None? {
        return None;
      }
      u[i] := 16 * high.value + low.value;
    }
    r := Some(u[..]);
  }

  /** Letters count in either case, and nothing else is a digit. */
  lemma DigitMeaning(c: char)
    ensures Digit(c).Some? <==> '0' <= c <= '9' || 'a' <= c <= 'f' || 'A' <= c <= 'F'
    ensures Digit(Upper(c)) == Digit(c)
    ensures Digit(c).Some? ==>
      exists b :: 0 <= b < 16 && (c == DIGITS[b] || c == Upper(DIGITS[b])) && Digit(c) == Some(b)
  {
    if Digit(c).Some? {
      var b := Digit(c).value;
      assert c == DIGITS[b] || c == Upper(DIGITS[b]);
    }
  }

  function Upper(c: char): char {
    if 'a' <= c <= 'z' then (c as int - 'a' as int + 'A' as int) as char else c
  }

  function UpperCase(s: string): (r: string)
    ensures |r| == |s| && forall i :: 0 <= i < |s| ==> r[i] == Upper(s[i])
  {
    seq(|s|, i requires 0 <= i < |s| => Upper(s[i]))
  }

  predicate Blank(s: string) {
    forall i :: 0 <= i < |s| ==> IsSpace(s[i])
  }

  /** Space on both sides is trimmed, and no more. */
  lemma {:induction false} TrimMeaning(before: string, s: string, after: string)
    requires Blank(before) && Blank(after)
    requires s != [] && !IsSpace(s[0]) && !IsSpace(s[|s| - 1])
    ensures TrimSpace(before + s + after) == s
    decreases |before| + |after|
  {
    hide IsSpace;
    var t := before + s + after;
    if before != [] {
      assert t[0] == before[0] && t[1..] == before[1..] + s + after;
      TrimMeaning(before[1..], s, after);
    } else if after != [] {
      assert t[0] == s[0] && t[|t| - 1] == after[|after| - 1];
      assert t[..|t| - 1] == before + s + after[..|after| - 1];
      TrimMeaning(before, s, after[..|after| - 1]);
    } else {
      assert t == s;
    }
  }

  /** Hyphens are ignored wherever they are. */
  lemma {:induction false} HyphensUpper(s: string)
    ensures WithoutHyphens(UpperCase(s)) == UpperCase(WithoutHyphens(s))
  {
    if s != [] {
      var n := |s| - 1;
      HyphensUpper(s[..n]);
      assert UpperCase(s)[..n] == UpperCase(s[..n]);
      var rest, last := WithoutHyphens(s[..n]), if s[n] == '-' then [] else [s[n]];
      assert UpperCase(rest + last) == UpperCase(rest) + UpperCase(last);
      assert Upper(s[n]) == '-' <==> s[n] == '-';
    }
  }

  /** Space around the printed form, and capital letters in it, change nothing. */
  method ParseLoosely(u: UUID, before: string, after: string, capitals: bool) returns (r: Option<UUID>)
    requires Blank(before) && Blank(after)
    ensures r == Some(u)
  {
    hide IsSpace, TrimSpace, WithoutHyphens, Hex, Digit;
    var text := if capitals then UpperCase(String(u)) else String(u);
    LooseText(u, capitals);
    TrimMeaning(before, text, after);
    r := Parse(before + text + after);
    SameDigits(u, Bare(before + text + after));
    assert r.value == u;
  }

  lemma LooseText(u: UUID, capitals: bool)
    ensures var text := if capitals then UpperCase(String(u)) else String(u);
      && text != [] && !IsSpace(text[0]) && !IsSpace(text[|text| - 1])
      && WithoutHyphens(text) == if capitals then UpperCase(Hex(u)) else Hex(u)
  {
    hide WithoutHyphens, Hex, TrimSpace;
    HexDigits(u[..4]);
    HexDigits(u[10..]);
    NotTrimmed(String(u));
    BareString(u);
    HyphensUpper(String(u));
    UpperNoSpace(String(u)[0]);
    UpperNoSpace(String(u)[|String(u)| - 1]);
  }

  lemma UpperNoSpace(c: char)
    ensures IsSpace(Upper(c)) <==> IsSpace(c)
  {
  }

  /** The digits of a UUID, in either case, are read as that UUID. */
  lemma SameDigits(u: UUID, bare: string)
    requires bare == Hex(u) || bare == UpperCase(Hex(u))
    ensures |bare| == 32 && AllDigits(bare)
    ensures forall i :: 0 <= i < 16 ==> 16 * DigitValue(bare[2 * i]) + DigitValue(bare[2 * i + 1]) == u[i]
  {
    hide Hex, Digit;
    HexDigits(u);
    forall i | 0 <= i < |bare| ensures Digit(bare[i]).Some? {
      DigitMeaning(Hex(u)[i]);
    }
    forall i | 0 <= i < 16 ensures 16 * DigitValue(bare[2 * i]) + DigitValue(bare[2 * i + 1]) == u[i] {
      DigitOf(u[i] / 16);
      DigitOf(u[i] % 16);
      DigitMeaning(Hex(u)[2 * i]);
      DigitMeaning(Hex(u)[2 * i + 1]);
    }
  }

  lemma DigitOf(b: nat)
    requires b < 16
    ensures Digit(DIGITS[b]) == Some(b) && DIGITS[b] != '-' && !IsSpace(DIGITS[b])
  {
  }

  /** One more byte's digits after those of the others. */
  lemma HexMore(text: string, u: seq<Byte>, n: nat)
    requires |u| == n + 1 && |text| == 2 * n
    requires forall i :: 0 <= i < n ==>
      text[2 * i] == DIGITS[u[..n][i] / 16] && text[2 * i + 1] == DIGITS[u[..n][i] % 16]
    ensures var s := text + HexByte(u[n]);
      forall i :: 0 <= i < |u| ==> s[2 * i] == DIGITS[u[i] / 16] && s[2 * i + 1] == DIGITS[u[i] % 16]
  {
    var s := text + HexByte(u[n]);
    forall i | 0 <= i < |u| ensures s[2 * i] == DIGITS[u[i] / 16] && s[2 * i + 1] == DIGITS[u[i] % 16] {
      if i < n {
        assert u[..n][i] == u[i] && s[2 * i] == text[2 * i] && s[2 * i + 1] == text[2 * i + 1];
      }
    }
  }

  lemma {:induction false} HexDigits(u: seq<Byte>)
    ensures |Hex(u)| == 2 * |u|
    ensures forall i :: 0 <= i < |u| ==> Hex(u)[2 * i] == DIGITS[u[i] / 16] && Hex(u)[2 * i + 1] == DIGITS[u[i] % 16]
    ensures forall i :: 0 <= i < |Hex(u)| ==> Digit(Hex(u)[i]).Some? && Hex(u)[i] != '-' && !IsSpace(Hex(u)[i])
  {
    if u != [] {
      hide Digit, IsSpace;
      var n := |u| - 1;
      HexDigits(u[..n]);
      DigitOf(u[n] / 16);
      DigitOf(u[n] % 16);
      assert Hex(u) == Hex(u[..n]) + HexByte(u[n]);
      HexMore(Hex(u[..n]), u, n);
    }
  }

  lemma LowerDigits(u: seq<Byte>)
    ensures |Hex(u)| == 2 * |u| && forall i :: 0 <= i < |Hex(u)| ==> Hex(u)[i] in DIGITS && Hex(u)[i] != '-'
  {
    hide Digit, IsSpace, Hex;
    HexDigits(u);
    forall i | 0 <= i < |Hex(u)| ensures Hex(u)[i] in DIGITS && Hex(u)[i] != '-' {
      assert Hex(u)[2 * (i / 2)] == DIGITS[u[i / 2] / 16] && Hex(u)[2 * (i / 2) + 1] == DIGITS[u[i / 2] % 16];
    }
  }

  /** A UUID is printed as 36 characters: lower-case digits in groups of 8, 4, 4, 4 and 12 with hyphens between. */
  lemma StringShape(u: UUID)
    ensures |String(u)| == 36
    ensures forall i :: 0 <= i < 36 ==> (String(u)[i] == '-' <==> i in {8, 13, 18, 23})
    ensures forall i :: 0 <= i < 36 && i !in {8, 13, 18, 23} ==> String(u)[i] in DIGITS
  {
    hide Hex;
    LowerDigits(u[..4]);
    LowerDigits(u[4..6]);
    LowerDigits(u[6..8]);
    LowerDigits(u[8..10]);
    LowerDigits(u[10..]);
  }

  lemma {:induction false} HyphensConcat(a: string, b: string)
    ensures WithoutHyphens(a + b) == WithoutHyphens(a) + WithoutHyphens(b)
  {
    if b == [] {
      assert a + b == a;
    } else {
      assert (a + b)[..|a + b| - 1] == a + b[..|b| - 1];
      HyphensConcat(a, b[..|b| - 1]);
    }
  }

  lemma {:induction false} NoHyphens(s: string)
    requires forall i :: 0 <= i < |s| ==> s[i] != '-'
    ensures WithoutHyphens(s) == s
  {
    if s != [] {
      NoHyphens(s[..|s| - 1]);
    }
  }

  lemma {:induction false} HexConcat(a: seq<Byte>, b: seq<Byte>)
    ensures Hex(a + b) == Hex(a) + Hex(b)
  {
    if b == [] {
      assert a + b == a;
    } else {
      assert (a + b)[..|a + b| - 1] == a + b[..|b| - 1];
      HexConcat(a, b[..|b| - 1]);
    }
  }

  lemma OneHyphen()
    ensures WithoutHyphens("-") == []
  {
  }

  lemma Group(text: string, u: seq<Byte>)
    ensures WithoutHyphens(text + "-" + Hex(u)) == WithoutHyphens(text) + Hex(u)
  {
    hide Hex, WithoutHyphens, Digit, IsSpace;
    HexDigits(u);
    NoHyphens(Hex(u));
    HyphensConcat(text + "-", Hex(u));
    HyphensConcat(text, "-");
    OneHyphen();
  }

  /** Printed without its hyphens, a UUID is its 32 digits. */
  lemma BareString(u: UUID)
    ensures Bare(String(u)) == Hex(u)
  {
    hide WithoutHyphens, Hex, TrimSpace, IsSpace;
    HexDigits(u[..4]);
    HexDigits(u[10..]);
    NotTrimmed(String(u));
    var a, b, c, d, e := u[..4], u[4..6], u[6..8], u[8..10], u[10..];
    NoHyphens(Hex(a));
    var t1 := Hex(a) + "-" + Hex(b);
    var t2 := t1 + "-" + Hex(c);
    var t3 := t2 + "-" + Hex(d);
    Group(Hex(a), b);
    Group(t1, c);
    Group(t2, d);
    Group(t3, e);
    HexConcat(a, b);
    HexConcat(a + b, c);
    HexConcat(a + b + c, d);
    HexConcat(a + b + c + d, e);
    assert a + b + c + d + e == u;
  }

  lemma NotTrimmed(s: string)
    requires s != [] && !IsSpace(s[0]) && !IsSpace(s[|s| - 1])
    ensures TrimSpace(s) == s
  {
  }

  /** Parsing what was printed gives the UUID back. */
  method PrintAndParse(u: UUID) returns (r: Option<UUID>)
    ensures r == Some(u)
  {
    BareString(u);
    HexDigits(u);
    r := Parse(String(u));
    forall i | 0 <= i < 16 ensures r.value[i] == u[i] {
      DigitOf(u[i] / 16);
      DigitOf(u[i] % 16);
    }
    assert r.value == u;
  }

  // ---------------------------------------------------------------- version 7

  const MAX_COUNTER := 4095
  const ATTEMPTS := 128

  function Version(u: UUID): int { u[6] / 16 }

  function Variant(u: UUID): int { u[8] / 64 }

  /** The twelve bits after the version. */
  function RandA(u: UUID): int {
    var high: int := u[6];
    high % 16 * 256 + u[7]
  }

  /** The lowest n bytes of a number, the most significant first. */
  function BigEndian(m: int, n: nat): (r: seq<Byte>)
    ensures |r| == n
    decreases n
  {
    if n == 0 then [] else BigEndian(m / 256, n - 1) + [m % 256]
  }

  lemma {:induction false} BigEndianNumber(m: nat, n: nat)
    requires m < Power(n)
    ensures Number(BigEndian(m, n)) == m
  {
    if n > 0 {
      BigEndianNumber(m / 256, n - 1);
      assert BigEndian(m, n)[..n - 1] == BigEndian(m / 256, n - 1);
    }
  }

  /** rand_b: the variant takes the two highest bits of the random bytes. */
  function Tail(random: seq<Byte>): seq<Byte>
    requires |random| == 8
  {
    [128 + random[0] % 64] + random[1..]
  }

  function Stamp(millis: int): seq<Byte> { BigEndian(millis, 6) }

  function Marked(counter: nat): seq<Byte>
    requires counter <= MAX_COUNTER
  {
    [112 + counter / 256, counter % 256]
  }

  /** Section 5.7 of RFC 9562: timestamp, version and rand_a, variant and rand_b. */
  function Layout(millis: int, counter: nat, random: seq<Byte>): UUID
    requires counter <= MAX_COUNTER && |random| == 8
  {
    Stamp(millis) + Marked(counter) + Tail(random)
  }

  /** What repeated attempts to read eight random bytes leave; an attempt may stop early. */
  function Filled(attempts: seq<seq<Byte>>, cur: seq<Byte>): (r: seq<Byte>)
    requires |cur| == 8 && forall i :: 0 <= i < |attempts| ==> |attempts[i]| <= 8
    ensures |r| == 8
    decreases |attempts|
  {
    if attempts == [] then cur
    else if |attempts[0]| == 8 then attempts[0]
    else Filled(attempts[1..], attempts[0] + cur[|attempts[0]|..])
  }

  function Tried(attempts: seq<seq<Byte>>): seq<seq<Byte>> {
    if |attempts| <= ATTEMPTS then attempts else attempts[..ATTEMPTS]
  }

  function Remaining(attempts: seq<seq<Byte>>, i: nat): seq<seq<Byte>> {
    if i < |attempts| then attempts[i..] else []
  }

  ghost predicate Short(attempts: seq<seq<Byte>>) {
    forall i :: 0 <= i < |attempts| ==> |attempts[i]| <= 8
  }

  predicate NoneFull(attempts: seq<seq<Byte>>) {
    forall i :: 0 <= i < |attempts| ==> |attempts[i]| != 8
  }

  predicate FirstFull(attempts: seq<seq<Byte>>, i: int) {
    0 <= i < |attempts| && |attempts[i]| == 8 && forall j :: 0 <= j < i ==> |attempts[j]| != 8
  }

  /** The i-th attempt is the last that delivered the k-th byte. */
  predicate LastReaching(attempts: seq<seq<Byte>>, i: int, k: nat) {
    0 <= i < |attempts| && k < |attempts[i]| && forall j :: i < j < |attempts| ==> |attempts[j]| <= k
  }

  lemma FilledStep(tried: seq<seq<Byte>>, i: nat, cur: seq<Byte>)
    requires Short(tried) && |cur| == 8
    ensures var a := if i < |tried| then tried[i] else [];
      Filled(Remaining(tried, i), cur) ==
        if |a| == 8 then a else Filled(Remaining(tried, i + 1), a + cur[|a|..])
  {
    if i < |tried| {
      assert tried[i..][1..] == tried[i + 1..];
    }
  }

  lemma FilledDone(cur: seq<Byte>)
    requires |cur| == 8
    ensures Filled([], cur) == cur
  {
  }

  /** Which bytes are left: those of the first full attempt, or else of the last that reached each. */
  lemma {:induction false} FilledMeaning(attempts: seq<seq<Byte>>, cur: seq<Byte>)
    requires Short(attempts) && |cur| == 8
    ensures forall i :: FirstFull(attempts, i) ==> Filled(attempts, cur) == attempts[i]
    ensures forall i, k: nat :: k < 8 && NoneFull(attempts) && LastReaching(attempts, i, k) ==>
      Filled(attempts, cur)[k] == attempts[i][k]
    ensures forall k: nat :: k < 8 && (forall i :: 0 <= i < |attempts| ==> |attempts[i]| <= k) ==>
      Filled(attempts, cur)[k] == cur[k]
    decreases |attempts|
  {
    if attempts != [] && |attempts[0]| < 8 {
      var rest, next := attempts[1..], attempts[0] + cur[|attempts[0]|..];
      FilledMeaning(rest, next);
      forall i | FirstFull(attempts, i) ensures Filled(attempts, cur) == attempts[i] {
        assert FirstFull(rest, i - 1);
      }
      forall i, k: nat | k < 8 && NoneFull(attempts) && LastReaching(attempts, i, k)
        ensures Filled(attempts, cur)[k] == attempts[i][k]
      {
        if i > 0 {
          assert LastReaching(rest, i - 1, k);
        }
      }
    }
  }

  class MonotonicCounter {
    var counter: nat
    var prevMillis: int

    constructor ()
      ensures counter == 0 && prevMillis == 0
    {
      counter, prevMillis := 0, 0;
    }

    method Next(millis: int) returns (c: nat)
      requires counter <= MAX_COUNTER
      modifies this
      ensures c == counter <= MAX_COUNTER
      ensures millis <= old(prevMillis) ==>
        && prevMillis == old(prevMillis)
        && counter == if old(counter) == MAX_COUNTER then MAX_COUNTER else old(counter) + 1
      ensures old(prevMillis) < millis ==> prevMillis == millis && counter == 0
    {
      if millis <= prevMillis {
        if counter == MAX_COUNTER {
          return counter;
        }
        counter := counter + 1;
      } else {
        prevMillis := millis;
        counter := 0;
      }
      c := counter;
    }
  }

  lemma TwelveBits(c: nat)
    requires c <= MAX_COUNTER
    ensures c % 4096 == c && c / 256 < 16 && c / 256 % 256 == c / 256
  {
  }

  class V7 {
    const randA: MonotonicCounter

    constructor ()
      ensures fresh(randA) && randA.counter == 0 && randA.prevMillis == 0
    {
      randA := new MonotonicCounter();
    }

    method SetTimestamp(u: array<Byte>, millis: int)
      requires u.Length == 16
      modifies u
      ensures u[..6] == Stamp(millis) && forall k :: 6 <= k < 16 ==> u[k] == old(u[k])
    {
      u[0] := millis / 0x100_0000_0000 % 256;
      u[1] := millis / 0x1_0000_0000 % 256;
      u[2] := millis / 0x100_0000 % 256;
      u[3] := millis / 0x1_0000 % 256;
      u[4] := millis / 0x100 % 256;
      u[5] := millis % 256;
      StampBytes(millis);
    }

    method SetRandA(u: array<Byte>, millis: int)
      requires u.Length == 16 && randA.counter <= MAX_COUNTER
      modifies u, randA
      ensures randA.counter <= MAX_COUNTER
      ensures millis <= old(randA.prevMillis) ==>
        && randA.prevMillis == old(randA.prevMillis)
        && randA.counter == if old(randA.counter) == MAX_COUNTER then MAX_COUNTER else old(randA.counter) + 1
      ensures old(randA.prevMillis) < millis ==> randA.prevMillis == millis && randA.counter == 0
      ensures forall k :: 0 <= k < 16 && k != 6 && k != 7 ==> u[k] == old(u[k])
      ensures u[6] == randA.counter / 256 && u[7] == randA.counter % 256
    {
      var counter := randA.Next(millis);
      TwelveBits(counter);
      counter := counter % 4096;
      u[6] := counter / 256 % 256;
      u[7] := counter % 256;
    }

    /** One attempt: what the random source delivers before it ends or fails. */
    method ReadFull(u: array<Byte>, a: seq<Byte>) returns (full: bool)
      requires u.Length == 16 && |a| <= 8
      modifies u
      ensures full == (|a| == 8)
      ensures forall k :: 0 <= k < 8 ==> u[k] == old(u[k])
      ensures u[8..] == a + old(u[8..])[|a|..]
    {
      ghost var rest := u[8..][|a|..];
      for k := 0 to |a|
        invariant forall j :: 0 <= j < 8 ==> u[j] == old(u[j])
        invariant forall j :: 0 <= j < k ==> u[8 + j] == a[j]
        invariant forall j :: 8 + |a| <= j < 16 ==> u[j] == rest[j - 8 - |a|]
      {
        u[8 + k] := a[k];
      }
      full := |a| == 8;
    }

    /**
     Gives up after 128 attempts, and even then reports no error.  Attempts that are not given
     deliver nothing.  The last eight bytes are those of the first full attempt; without one,
     each is from the last attempt that reached it, or what it was before.
     */
    method FillWithRandom(u: array<Byte>, attempts: seq<seq<Byte>>) returns (failed: bool)
      requires u.Length == 16 && forall i :: 0 <= i < |attempts| ==> |attempts[i]| <= 8
      modifies u
      ensures !failed && forall k :: 0 <= k < 8 ==> u[k] == old(u[k])
      ensures u[8..] == Filled(Tried(attempts), old(u[8..]))
      ensures forall i :: FirstFull(attempts, i) && i < ATTEMPTS ==> u[8..] == attempts[i]
      ensures forall i, k: nat :: k < 8 && NoneFull(Tried(attempts)) && LastReaching(Tried(attempts), i, k) ==>
        u[8..][k] == attempts[i][k]
      ensures forall k: nat :: k < 8 && (forall i :: 0 <= i < |Tried(attempts)| ==> |attempts[i]| <= k) ==>
        u[8..][k] == old(u[8..])[k]
    {
      hide Filled;
      failed := false;
      ghost var tried, first := Tried(attempts), u[8..];
      FilledMeaning(tried, first);
      assert tried[0..] == tried;
      for i := 0 to ATTEMPTS
        invariant forall k :: 0 <= k < 8 ==> u[k] == old(u[k])
        invariant Filled(tried, first) == Filled(Remaining(tried, i), u[8..])
      {
        var a := if i < |attempts| then attempts[i] else [];
        FilledStep(tried, i, u[8..]);
        var full := ReadFull(u, a);
        if full {
          return;
        }
      }
      FilledDone(u[8..]);
    }

    method SetVersion(u: array<Byte>, version: int)
      requires u.Length == 16
      modifies u
      ensures u[6] == old(u[6]) % 16 + version % 16 * 16
      ensures forall k :: 0 <= k < 16 && k != 6 ==> u[k] == old(u[k])
    {
      u[6] := u[6] % 16 + version * 16 % 256;
    }

    method SetVariant(u: array<Byte>, variant: int)
      requires u.Length == 16
      modifies u
      ensures u[8] == old(u[8]) % 64 + variant % 4 * 64
      ensures forall k :: 0 <= k < 16 && k != 8 ==> u[k] == old(u[k])
    {
      u[8] := u[8] % 64 + variant * 64 % 256;
    }

    method Make(millis: int, attempts: seq<seq<Byte>>) returns (id: UUID)
      requires randA.counter <= MAX_COUNTER
      requires forall i :: 0 <= i < |attempts| ==> |attempts[i]| <= 8
      modifies randA
      ensures randA.counter <= MAX_COUNTER
      ensures millis <= old(randA.prevMillis) ==>
        && randA.prevMillis == old(randA.prevMillis)
        && randA.counter == if old(randA.counter) == MAX_COUNTER then MAX_COUNTER else old(randA.counter) + 1
      ensures old(randA.prevMillis) < millis ==> randA.prevMillis == millis && randA.counter == 0
      ensures id == Layout(millis, randA.counter, Filled(Tried(attempts), ZEROS))
    {
      hide Filled, Tried, BigEndian, FirstFull, NoneFull, LastReaching;
      var u := new Byte[16](_ => 0);
      SetTimestamp(u, millis);
      ghost var stamp := u[..6];
      SetRandA(u, millis);
      assert u[8..] == ZEROS;
      var failed := FillWithRandom(u, attempts);
      ghost var random := u[8..];
      SetVersion(u, 7);
      SetVariant(u, 2);
      id := u[..];
      assert id[..6] == stamp && id[9..] == random[1..];
      Assembled(id, millis, randA.counter, random);
    }
  }

  /** A UUID with the fields in their places is the layout. */
  lemma Assembled(u: UUID, millis: int, counter: nat, random: seq<Byte>)
    requires counter <= MAX_COUNTER && |random| == 8
    requires u[..6] == Stamp(millis) && u[6] == 112 + counter / 256 && u[7] == counter % 256
    requires u[8] == 128 + random[0] % 64 && u[9..] == random[1..]
    ensures u == Layout(millis, counter, random)
  {
    assert u == u[..6] + [u[6], u[7]] + ([u[8]] + u[9..]);
  }

  const ZEROS: seq<Byte> := [0, 0, 0, 0, 0, 0, 0, 0]

  lemma StampBytes(millis: int)
    ensures Stamp(millis) == [
      millis / 0x100_0000_0000 % 256, millis / 0x1_0000_0000 % 256, millis / 0x100_0000 % 256,
      millis / 0x1_0000 % 256, millis / 0x100 % 256, millis % 256]
  {
    var m1, m2, m3, m4, m5 := millis / 0x100, millis / 0x1_0000, millis / 0x100_0000, millis / 0x1_0000_0000,
      millis / 0x100_0000_0000;
    assert m2 == m1 / 256 && m3 == m2 / 256 && m4 == m3 / 256 && m5 == m4 / 256;
    assert BigEndian(m5, 1) == [m5 % 256];
    assert BigEndian(m4, 2) == [m5 % 256, m4 % 256];
    assert BigEndian(m3, 3) == [m5 % 256, m4 % 256, m3 % 256];
    assert BigEndian(m2, 4) == [m5 % 256, m4 % 256, m3 % 256, m2 % 256];
    assert BigEndian(m1, 5) == [m5 % 256, m4 % 256, m3 % 256, m2 % 256, m1 % 256];
  }

  const MILLIS := 0x1_0000_0000_0000

  /** What a UUID carries: nothing written later damages what was written before. */
  lemma Fields(millis: nat, counter: nat, random: seq<Byte>)
    requires millis < MILLIS && counter <= MAX_COUNTER && |random| == 8
    ensures var u := Layout(millis, counter, random);
      && Version(u) == 7 && Variant(u) == 2
      && Number(u[..6]) == millis
      && RandA(u) == counter
      && u[8] % 64 == random[0] % 64 && u[9..] == random[1..] && u[8..] == Tail(random)
  {
    var u := Layout(millis, counter, random);
    SixBytes();
    BigEndianNumber(millis, 6);
    assert u[..6] == Stamp(millis);
    assert u[9..] == random[1..] && u[8..] == Tail(random);
  }

  lemma SixBytes()
    ensures Power(6) == MILLIS
  {
    assert Power(3) == 0x100_0000;
    assert Power(6) == 256 * (256 * (256 * Power(3)));
  }

  /** The timestamp orders first, then the counter, then the random bytes. */
  lemma Order(m1: nat, c1: nat, r1: seq<Byte>, m2: nat, c2: nat, r2: seq<Byte>)
    requires m1 < MILLIS && c1 <= MAX_COUNTER && |r1| == 8
    requires m2 < MILLIS && c2 <= MAX_COUNTER && |r2| == 8
    ensures Number(Layout(m1, c1, r1)) < Number(Layout(m2, c2, r2)) <==>
      m1 < m2 || (m1 == m2 && (c1 < c2 || (c1 == c2 && LexLess(Tail(r1), Tail(r2)))))
  {
    hide LexLess, BigEndian, Power;
    LexIsNumeric(Layout(m1, c1, r1), Layout(m2, c2, r2));
    LexConcat(Stamp(m1) + Marked(c1), Tail(r1), Stamp(m2) + Marked(c2), Tail(r2));
    LexConcat(Stamp(m1), Marked(c1), Stamp(m2), Marked(c2));
    StampOrder(m1, m2);
    MarkedOrder(c1, c2);
    if Stamp(m1) + Marked(c1) == Stamp(m2) + Marked(c2) {
      assert Stamp(m1) == (Stamp(m1) + Marked(c1))[..6];
      assert Marked(c1) == (Stamp(m1) + Marked(c1))[6..];
    }
  }

  lemma StampOrder(m1: nat, m2: nat)
    requires m1 < MILLIS && m2 < MILLIS
    ensures LexLess(Stamp(m1), Stamp(m2)) <==> m1 < m2
    ensures Stamp(m1) == Stamp(m2) <==> m1 == m2
  {
    SixBytes();
    BigEndianNumber(m1, 6);
    BigEndianNumber(m2, 6);
    LexIsNumeric(Stamp(m1), Stamp(m2));
  }

  lemma MarkedOrder(c1: nat, c2: nat)
    requires c1 <= MAX_COUNTER && c2 <= MAX_COUNTER
    ensures LexLess(Marked(c1), Marked(c2)) <==> c1 < c2
    ensures Marked(c1) == Marked(c2) <==> c1 == c2
  {
    var a, b := Marked(c1), Marked(c2);
    assert a[1..] == [c1 % 256] && b[1..] == [c2 % 256];
    assert !LexLess(a[1..][1..], b[1..][1..]);
    assert LexLess(a[1..], b[1..]) <==> c1 % 256 < c2 % 256;
    assert a[0] == 112 + c1 / 256 && a[1] == c1 % 256 && b[0] == 112 + c2 / 256 && b[1] == c2 % 256;
  }

  ghost predicate Rising(ms: seq<nat>) {
    forall i, j :: 0 <= i < j < |ms| ==> ms[i] <= ms[j]
  }

  /** How many calls before the i-th were made in the same millisecond. */
  ghost function Earlier(ms: seq<nat>, i: nat): nat
    requires i < |ms|
  {
    multiset(ms[..i])[ms[i]]
  }

  /** The counter of the i-th call: the 4096 calls of a millisecond count up from 0, then it stays. */
  ghost function CounterOf(ms: seq<nat>, i: nat): (c: nat)
    requires i < |ms|
    ensures c <= MAX_COUNTER
  {
    var c := Earlier(ms, i) + if ms[i] == 0 then 1 else 0;
    if c < MAX_COUNTER then c else MAX_COUNTER
  }

  lemma EarlierStep(ms: seq<nat>, i: nat)
    requires Rising(ms) && 0 < i < |ms|
    ensures ms[i] == ms[i - 1] ==> Earlier(ms, i) == Earlier(ms, i - 1) + 1
    ensures ms[i] != ms[i - 1] ==> Earlier(ms, i) == 0
  {
    assert ms[..i] == ms[..i - 1] + [ms[i - 1]];
    assert forall k :: 0 <= k < i ==> ms[k] <= ms[i - 1] <= ms[i];
  }

  /** A later call of the same millisecond has seen more calls. */
  lemma {:induction false} EarlierGrows(ms: seq<nat>, i: nat, j: nat)
    requires Rising(ms) && i < j < |ms| && ms[i] == ms[j]
    ensures Earlier(ms, i) < Earlier(ms, j)
    decreases j
  {
    assert ms[i] <= ms[j - 1] <= ms[j] || i == j - 1;
    EarlierStep(ms, j);
    if i < j - 1 {
      EarlierGrows(ms, i, j - 1);
    }
  }

  /**
   Calls in order with a clock that does not go back: two UUIDs are in order exactly when
   their milliseconds differ, or the counter had not saturated for the earlier one, or their
   random bytes happen to be in order.  Within the first 4096 calls of a millisecond, it has not.
   */
  method MakeAll(ms: seq<nat>, attempts: seq<seq<seq<Byte>>>) returns (ids: seq<UUID>, ghost random: seq<seq<Byte>>)
    requires Rising(ms) && (forall i :: 0 <= i < |ms| ==> ms[i] < MILLIS) && |attempts| == |ms|
    requires forall i, k :: 0 <= i < |ms| && 0 <= k < |attempts[i]| ==> |attempts[i][k]| <= 8
    ensures |ids| == |ms| == |random|
    ensures forall i :: 0 <= i < |ms| ==>
      |random[i]| == 8 && random[i] == Filled(Tried(attempts[i]), ZEROS) && ids[i][8..] == Tail(random[i])
    ensures forall i :: 0 <= i < |ms| ==> Version(ids[i]) == 7 && Variant(ids[i]) == 2 && Number(ids[i][..6]) == ms[i]
    ensures forall i, j :: 0 <= i < j < |ms| ==>
      (Number(ids[i]) < Number(ids[j]) <==>
        ms[i] < ms[j] || CounterOf(ms, i) < MAX_COUNTER || LexLess(Tail(random[i]), Tail(random[j])))
    ensures forall i, j :: 0 <= i < j < |ms| && 0 < ms[j] && Earlier(ms, j) < 4096 ==> Number(ids[i]) < Number(ids[j])
  {
    hide Number, LexLess, Layout, Filled, Rising, CounterOf, Earlier, Tail;
    var g := new V7();
    ids, random := [], [];
    for i := 0 to |ms|
      invariant |ids| == i == |random| && fresh(g.randA)
      invariant i == 0 ==> g.randA.prevMillis == 0 && g.randA.counter == 0
      invariant i > 0 ==> g.randA.prevMillis == ms[i - 1] && g.randA.counter == CounterOf(ms, i - 1)
      invariant forall k :: 0 <= k < i ==> random[k] == Filled(Tried(attempts[k]), ZEROS)
      invariant forall k :: 0 <= k < i ==> |random[k]| == 8 && ids[k] == Layout(ms[k], CounterOf(ms, k), random[k])
    {
      var id := g.Make(ms[i], attempts[i]);
      CounterStep(ms, i);
      ids := ids + [id];
      random := random + [Filled(Tried(attempts[i]), ZEROS)];
    }
    InOrder(ms, ids, random);
  }

  /** The counters of the calls are those that the code counts. */
  lemma CounterStep(ms: seq<nat>, i: nat)
    requires Rising(ms) && i < |ms|
    ensures i == 0 ==> CounterOf(ms, i) == if ms[i] == 0 then 1 else 0
    ensures i > 0 ==> ms[i - 1] <= ms[i]
    ensures i > 0 && ms[i - 1] < ms[i] ==> CounterOf(ms, i) == 0
    ensures i > 0 && ms[i - 1] == ms[i] ==>
      CounterOf(ms, i) == if CounterOf(ms, i - 1) == MAX_COUNTER then MAX_COUNTER else CounterOf(ms, i - 1) + 1
  {
    if i > 0 {
      EarlierStep(ms, i);
    }
  }

  lemma InOrder(ms: seq<nat>, ids: seq<UUID>, random: seq<seq<Byte>>)
    requires Rising(ms) && (forall i :: 0 <= i < |ms| ==> ms[i] < MILLIS) && |ms| == |ids| == |random|
    requires forall k :: 0 <= k < |ms| ==> |random[k]| == 8 && ids[k] == Layout(ms[k], CounterOf(ms, k), random[k])
    ensures forall i :: 0 <= i < |ms| ==> Version(ids[i]) == 7 && Variant(ids[i]) == 2 && Number(ids[i][..6]) == ms[i]
    ensures forall i :: 0 <= i < |ms| ==> ids[i][8..] == Tail(random[i])
    ensures forall i, j :: 0 <= i < j < |ms| ==>
      (Number(ids[i]) < Number(ids[j]) <==>
        ms[i] < ms[j] || CounterOf(ms, i) < MAX_COUNTER || LexLess(Tail(random[i]), Tail(random[j])))
    ensures forall i, j :: 0 <= i < j < |ms| && 0 < ms[j] && Earlier(ms, j) < 4096 ==> Number(ids[i]) < Number(ids[j])
  {
    hide Number, LexLess, Layout, Version, Variant;
    forall i | 0 <= i < |ms|
      ensures Version(ids[i]) == 7 && Variant(ids[i]) == 2 && Number(ids[i][..6]) == ms[i]
      ensures ids[i][8..] == Tail(random[i])
    {
      Fields(ms[i], CounterOf(ms, i), random[i]);
    }
    forall i, j | 0 <= i < j < |ms|
      ensures Number(ids[i]) < Number(ids[j]) <==>
        ms[i] < ms[j] || CounterOf(ms, i) < MAX_COUNTER || LexLess(Tail(random[i]), Tail(random[j]))
      ensures 0 < ms[j] && Earlier(ms, j) < 4096 ==> Number(ids[i]) < Number(ids[j])
    {
      Order(ms[i], CounterOf(ms, i), random[i], ms[j], CounterOf(ms, j), random[j]);
      assert ms[i] <= ms[j];
      if ms[i] == ms[j] {
        EarlierGrows(ms, i, j);
      }
    }
  }
}
