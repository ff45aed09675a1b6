/** The two text files: lines of decimal integers, written with `<<` and read back with `>>`. */
module TextFiles {
  import opened Records

  predicate IsDigit(c: char) { '0' <= c <= '9' }

  predicate IsSpace(c: char) { c == ' ' || c == '\n' || c == '\t' || c == '\r' }

  function Digits(n: nat): (s: string)
    ensures |s| > 0 && forall i | 0 <= i < |s| :: IsDigit(s[i])
  {
    var d := [(n % 10) as char + '0'];
    if n < 10 then d else Digits(n / 10) + d
  }

  function PrintInt(v: Int32): string {
    var n: int := v;
    if n < 0 then "-" + Digits(-n) else Digits(n)
  }

  function SkipSpaces(s: string): (t: string)
    ensures |t| <= |s|
  {
    if s != "" && IsSpace(s[0]) then SkipSpaces(s[1..]) else s
  }

  /** The number of digits at the front. */
  function DigitRun(s: string): (n: nat)
    ensures n <= |s| && forall i | 0 <= i < n :: IsDigit(s[i])
  {
    if s != "" && IsDigit(s[0]) then 1 + DigitRun(s[1..]) else 0
  }

  function DigitsValue(s: string): nat
    requires forall i | 0 <= i < |s| :: IsDigit(s[i])
  {
    if s == "" then 0 else
      assert IsDigit(s[|s| - 1]);
      10 * DigitsValue(s[..|s| - 1]) + (s[|s| - 1] as int - '0' as int)
  }

  /** The number the digits at the front spell; no digits, or too many for an `int`, is a failure. */
  function ReadDigits(s: string, negative: bool): (r: Option<(Int32, string)>)
    ensures r.Some? ==> |r.value.1| < |s|
  {
    var k := DigitRun(s);
    if k == 0 then None else
      var n: int := DigitsValue(s[..k]);
      var v := if negative then -n else n;
      if -0x8000_0000 <= v < 0x8000_0000 then Some((v, s[k..])) else None
  }

  /** `>>` into an `int`: skip white space, take an optional sign, then the digits. */
  function ReadInt(s: string): (r: Option<(Int32, string)>)
    ensures r.Some? ==> |r.value.1| < |s|
  {
    var t := SkipSpaces(s);
    if t != "" && (t[0] == '-' || t[0] == '+') then ReadDigits(t[1..], t[0] == '-') else ReadDigits(t, false)
  }

  function ReadFields(s: string, n: nat): (r: Option<(seq<Int32>, string)>)
    ensures r.Some? ==> |r.value.0| == n && |r.value.1| <= |s| - n
    decreases n
  {
    if n == 0 then Some(([], s)) else
      match ReadInt(s)
      case None => None
      case Some((v, rest)) =>
        match ReadFields(rest, n - 1)
        case None => None
        case Some((vs, end)) => Some(([v] + vs, end))
  }

  predicate AllOfWidth(lines: seq<seq<Int32>>, n: nat) {
    forall i | 0 <= i < |lines| :: |lines[i]| == n
  }

  /** Every complete group of `n` integers up to the first failure. */
  function ParseLines(s: string, n: nat): (lines: seq<seq<Int32>>)
    requires n > 0
    ensures AllOfWidth(lines, n)
    decreases |s|
  {
    match ReadFields(s, n)
    case None => []
    case Some((vs, rest)) => [vs] + ParseLines(rest, n)
  }

  function PrintLine(vs: seq<Int32>): string {
    if vs == [] then "" else if |vs| == 1 then PrintInt(vs[0]) + "\n" else PrintInt(vs[0]) + " " + PrintLine(vs[1..])
  }

  function PrintLines(lines: seq<seq<Int32>>): string {
    if lines == [] then "" else PrintLine(lines[0]) + PrintLines(lines[1..])
  }

  lemma {:induction false} DigitsValueOf(n: nat)
    ensures DigitsValue(Digits(n)) == n
  {
    var s := Digits(n);
    if n >= 10 {
      DigitsValueOf(n / 10);
      assert s[..|s| - 1] == Digits(n / 10);
    } else {
      assert s[..0] == "";
    }
  }

  lemma {:induction false} DigitRunOf(d: string, rest: string)
    requires forall i | 0 <= i < |d| :: IsDigit(d[i])
    requires rest == "" || !IsDigit(rest[0])
    ensures DigitRun(d + rest) == |d|
  {
    if d == "" {
      assert d + rest == rest;
    } else {
      assert (d + rest)[1..] == d[1..] + rest;
      DigitRunOf(d[1..], rest);
    }
  }

  lemma ReadDigitsOf(v: Int32, rest: string)
    requires rest == "" || !IsDigit(rest[0])
    ensures var w: int := v;
            ReadDigits(Digits(if w < 0 then -w else w) + rest, w < 0) == Some((v, rest))
  {
    var w: int := v;
    var m := if w < 0 then -w else w;
    var d := Digits(m);
    DigitsValueOf(m);
    DigitRunOf(d, rest);
    assert (d + rest)[..|d|] == d && (d + rest)[|d|..] == rest;
  }

  lemma ReadUnsigned(s: string)
    requires s != "" && IsDigit(s[0])
    ensures ReadInt(s) == ReadDigits(s, false)
  {
    hide ReadDigits;
  }

  lemma ReadMinus(s: string)
    ensures ReadInt("-" + s) == ReadDigits(s, true)
  {
    hide ReadDigits;
    assert ("-" + s)[1..] == s;
  }

  lemma ReadIntOf(v: Int32, rest: string)
    requires rest == "" || !IsDigit(rest[0])
    ensures ReadInt(PrintInt(v) + rest) == Some((v, rest))
  {
    ReadDigitsOf(v, rest);
    hide ReadInt, ReadDigits, Digits;
    var w: int := v;
    var d := Digits(if w < 0 then -w else w);
    if w < 0 {
      ReadMinus(d + rest);
      assert PrintInt(v) + rest == "-" + (d + rest);
    } else {
      assert IsDigit(d[0]);
      ReadUnsigned(d + rest);
    }
  }

  lemma ReadIntAfterSpace(c: char, s: string)
    requires IsSpace(c)
    ensures ReadInt([c] + s) == ReadInt(s)
  {
    assert ([c] + s)[1..] == s;
  }

  lemma ReadFieldsStep(v: Int32, sep: char, rest: string, n: nat)
    requires !IsDigit(sep)
    ensures ReadFields(PrintInt(v) + ([sep] + rest), n + 1)
            == match ReadFields([sep] + rest, n) case None => None case Some((vs, end)) => Some(([v] + vs, end))
  {
    ReadIntOf(v, [sep] + rest);
    hide PrintInt, ReadInt;
  }

  lemma ReadFieldsAfterSpace(c: char, s: string, n: nat)
    requires IsSpace(c) && n > 0
    ensures ReadFields([c] + s, n) == ReadFields(s, n)
  {
    ReadIntAfterSpace(c, s);
    hide ReadInt;
  }

  lemma ReadLastField(v: Int32, rest: string)
    ensures ReadFields(PrintLine([v]) + rest, 1) == Some(([v], "\n" + rest))
  {
    ReadFieldsStep(v, '\n', rest, 0);
    assert PrintLine([v]) + rest == PrintInt(v) + (['\n'] + rest);
    hide PrintInt, ReadInt, PrintLine;
    assert ReadFields(['\n'] + rest, 0) == Some(([], ['\n'] + rest));
    assert [v] + [] == [v];
  }

  lemma ReadFirstField(v: Int32, more: seq<Int32>, rest: string)
    requires more != [] && ReadFields(PrintLine(more) + rest, |more|) == Some((more, "\n" + rest))
    ensures ReadFields(PrintLine([v] + more) + rest, 1 + |more|) == Some(([v] + more, "\n" + rest))
  {
    var tail := PrintLine(more) + rest;
    assert ([v] + more)[1..] == more;
    assert PrintLine([v] + more) + rest == PrintInt(v) + ([' '] + tail);
    hide PrintInt, ReadInt, PrintLine, ReadFields;
    ReadFieldsStep(v, ' ', tail, |more|);
    ReadFieldsAfterSpace(' ', tail, |more|);
  }

  lemma {:induction false} ReadLineOf(vs: seq<Int32>, rest: string)
    requires vs != []
    ensures ReadFields(PrintLine(vs) + rest, |vs|) == Some((vs, "\n" + rest))
  {
    hide PrintLine, ReadFields;
    if |vs| == 1 {
      assert vs == [vs[0]];
      ReadLastField(vs[0], rest);
    } else {
      assert vs == [vs[0]] + vs[1..];
      ReadLineOf(vs[1..], rest);
      ReadFirstField(vs[0], vs[1..], rest);
    }
  }

  /** Reading back any lines of `n` integers, also behind the newline that ended an earlier line. */
  lemma {:induction false} ParseLinesOf(lines: seq<seq<Int32>>, n: nat)
    requires n > 0 && AllOfWidth(lines, n)
    ensures ParseLines(PrintLines(lines), n) == lines
    ensures ParseLines("\n" + PrintLines(lines), n) == lines
  {
    var s := PrintLines(lines);
    ReadFieldsAfterSpace('\n', s, n);
    if lines != [] {
      ReadLineOf(lines[0], PrintLines(lines[1..]));
      ParseLinesOf(lines[1..], n);
    }
  }

  lemma {:induction false} PrintLinesConcat(a: seq<seq<Int32>>, b: seq<seq<Int32>>)
    ensures PrintLines(a + b) == PrintLines(a) + PrintLines(b)
  {
    if a == [] {
      assert a + b == b;
    } else {
      assert (a + b)[1..] == a[1..] + b;
      PrintLinesConcat(a[1..], b);
    }
  }

  // ---- The text, character by character ----

  function Power10(k: nat): (p: int)
    ensures p > 0
  {
    if k == 0 then 1 else 10 * Power10(k - 1)
  }

  lemma DivTens(n: nat, k: nat)
    requires k > 0
    ensures n / Power10(k) == n / 10 / Power10(k - 1)
  {
    var p := Power10(k - 1);
    var (q, r) := (n / 10 / p, n / 10 % p);
    assert n == 10 * (n / 10) + n % 10 && n / 10 == q * p + r;
    assert n == q * (10 * p) + (10 * r + n % 10);
    DivUnique(n, 10 * p, q, 10 * r + n % 10);
  }

  lemma MulAtLeast(x: int, d: int)
    requires x >= 1 && d > 0
    ensures x * d >= d
  {
  }

  lemma MulSub(a: int, q: int, d: int)
    ensures (a - q) * d == a * d - q * d
  {
  }

  lemma DivUnique(n: int, d: int, q: int, r: int)
    requires 0 <= r < d && n == q * d + r
    ensures n / d == q
  {
    var a := n / d;
    MulSub(a, q, d);
    MulSub(q, a, d);
    if a > q {
      MulAtLeast(a - q, d);
    } else if a < q {
      MulAtLeast(q - a, d);
    }
  }

  /** Numbers are written in decimal, the most significant digit first, with no leading zero. */
  lemma {:induction false} DigitsAre(n: nat, k: nat)
    requires k < |Digits(n)|
    ensures Digits(n)[|Digits(n)| - 1 - k] as int == '0' as int + n / Power10(k) % 10
    ensures |Digits(n)| > 1 ==> Digits(n)[0] != '0'
  {
    if n >= 10 {
      var d := Digits(n / 10);
      if k == 0 {
        DigitsAre(n / 10, 0);
      } else {
        DigitsAre(n / 10, k - 1);
        DivTens(n, k);
      }
      if |d| == 1 {
        assert d[0] == (n / 10 % 10) as char + '0';
      }
    }
  }

  /** A line of each file, as it is written. */
  lemma LinesAre(r: LogRec, cid: Int32, last: Int32)
    ensures PrintLog([r]) == PrintInt(r.txn) + " " + PrintInt(r.op) + " " + PrintInt(r.cid) + " " + PrintInt(r.num)
                             + " " + PrintInt(r.typ) + "\n"
    ensures PrintLine([cid, last]) == PrintInt(cid) + " " + PrintInt(last) + "\n"
    ensures forall v: Int32 | v < 0 :: PrintInt(v) == "-" + Digits(-(v as int))
    ensures forall v: Int32 | v >= 0 :: PrintInt(v) == Digits(v)
  {
    hide Digits;
    var (a, b, c, d, e) := (r.txn, r.op, r.cid, r.num, r.typ);
    LineOfFive(a, b, c, d, e);
    assert PrintLine([last]) == PrintInt(last) + "\n" && [cid, last][1..] == [last];
    OneMoreRecord([], r);
    assert PrintLog([]) == "";
    assert [] + [r] == [r] && "" + PrintLine(LogFields(r)) == PrintLine(LogFields(r));
  }

  lemma LineOfFive(a: Int32, b: Int32, c: Int32, d: Int32, e: Int32)
    ensures PrintLine([a, b, c, d, e])
            == PrintInt(a) + " " + PrintInt(b) + " " + PrintInt(c) + " " + PrintInt(d) + " " + PrintInt(e) + "\n"
  {
    hide PrintInt;
    assert [a, b, c, d, e][1..] == [b, c, d, e] && [b, c, d, e][1..] == [c, d, e] && [c, d, e][1..] == [d, e]
           && [d, e][1..] == [e];
    assert PrintLine([e]) == PrintInt(e) + "\n";
    assert PrintLine([d, e]) == PrintInt(d) + " " + PrintLine([e]);
    assert PrintLine([c, d, e]) == PrintInt(c) + " " + PrintLine([d, e]);
    assert PrintLine([b, c, d, e]) == PrintInt(b) + " " + PrintLine([c, d, e]);
  }

  // The transaction log, logFile.txt.

  function LogFields(r: LogRec): seq<Int32> {
    [r.txn, r.op, r.cid, r.num, r.typ]
  }

  function RecOf(vs: seq<Int32>): LogRec
    requires |vs| == 5
  {
    LogRec(vs[0], vs[1], vs[2], vs[3], vs[4])
  }

  function LogLines(recs: seq<LogRec>): (lines: seq<seq<Int32>>)
    ensures |lines| == |recs| && AllOfWidth(lines, 5)
  {
    seq(|recs|, i requires 0 <= i < |recs| => LogFields(recs[i]))
  }

  function PrintLog(recs: seq<LogRec>): string {
    PrintLines(LogLines(recs))
  }

  function LogOf(lines: seq<seq<Int32>>): (recs: seq<LogRec>)
    requires AllOfWidth(lines, 5)
    ensures |recs| == |lines|
  {
    seq(|lines|, i requires 0 <= i < |lines| => RecOf(lines[i]))
  }

  /** The records `>>` finds in a log file, five integers at a time. */
  function ParseLog(s: string): seq<LogRec> {
    LogOf(ParseLines(s, 5))
  }

  /** Any log, negative fields included, survives being written and read back. */
  lemma LogRoundTrip(recs: seq<LogRec>)
    ensures ParseLog(PrintLog(recs)) == recs
  {
    ParseLinesOf(LogLines(recs), 5);
  }

  /** Appending to the file is appending records. */
  lemma AppendLog(a: seq<LogRec>, b: seq<LogRec>)
    ensures PrintLog(a) + PrintLog(b) == PrintLog(a + b)
  {
    hide PrintLines;
    PrintLinesConcat(LogLines(a), LogLines(b));
    assert LogLines(a) + LogLines(b) == LogLines(a + b);
  }

  lemma OneMoreRecord(recs: seq<LogRec>, r: LogRec)
    ensures PrintLog(recs) + PrintLine(LogFields(r)) == PrintLog(recs + [r])
  {
    AppendLog(recs, [r]);
    var lines := LogLines([r]);
    assert lines[0] == LogFields(r) && lines[1..] == [];
    assert PrintLines(lines) == PrintLine(LogFields(r)) + PrintLines([]);
  }

  // The customer records, custRecFile.txt.

  ghost function MinKey(s: set<Int32>): (k: Int32)
    requires s != {}
    ensures k in s && forall j | j in s :: k <= j
  {
    var x :| x in s;
    if s == {x} then x else
      var y := MinKey(s - {x});
      assert forall j | j in s :: j == x || j in s - {x};
      if x < y then x else y
  }

  /** The entries of the table in ascending order of customer, the order in which `std::map` iterates. */
  ghost function Listing(m: Store): (es: seq<(Int32, Int32)>)
    decreases |m|
  {
    if m == map[] then [] else
      assert m.Keys != {};
      var k := MinKey(m.Keys);
      [(k, m[k])] + Listing(m - {k})
  }

  function StoreLines(es: seq<(Int32, Int32)>): (lines: seq<seq<Int32>>)
    ensures |lines| == |es| && AllOfWidth(lines, 2)
  {
    if es == [] then [] else [[es[0].0, es[0].1]] + StoreLines(es[1..])
  }

  ghost function PrintStore(m: Store): string {
    PrintLines(StoreLines(Listing(m)))
  }

  lemma PrintNoEntries()
    ensures PrintStore(map[]) == ""
  {
    assert Listing(map[]) == [];
  }

  lemma PrintFirstEntry(m: Store)
    requires m.Keys != {}
    ensures var k := MinKey(m.Keys);
            k in m && PrintStore(m) == PrintLine([k, m[k]]) + PrintStore(m - {k})
  {
    var k := MinKey(m.Keys);
    assert m != map[];
    assert Listing(m)[1..] == Listing(m - {k});
    var lines := StoreLines(Listing(m));
    assert lines[0] == [k, m[k]] && lines[1..] == StoreLines(Listing(m - {k}));
  }

  /** `std::map::insert` keeps the first value of a key. */
  function InsertAll(m: Store, lines: seq<seq<Int32>>): Store
    requires AllOfWidth(lines, 2)
    decreases |lines|
  {
    if lines == [] then m else
      var (k, v) := (lines[0][0], lines[0][1]);
      InsertAll(if k in m then m else m[k := v], lines[1..])
  }

  /** The table rebuilt from the file's text. */
  function ParseStore(s: string): Store {
    InsertAll(map[], ParseLines(s, 2))
  }

  lemma MergeOne(m0: Store, m: Store, k: Int32)
    requires k in m
    ensures (m - {k}) + (if k in m0 then m0 else m0[k := m[k]]) == m + m0
  {
  }

  lemma {:induction false} InsertListing(m0: Store, m: Store)
    ensures InsertAll(m0, StoreLines(Listing(m))) == m + m0
    decreases |m|
  {
    if m != map[] {
      var k := MinKey(m.Keys);
      var m1 := if k in m0 then m0 else m0[k := m[k]];
      var (lines, more) := (StoreLines(Listing(m)), StoreLines(Listing(m - {k})));
      assert Listing(m)[1..] == Listing(m - {k});
      assert lines[0] == [k, m[k]] && lines[1..] == more;
      hide Listing, StoreLines;
      assert InsertAll(m0, lines) == InsertAll(m1, more);
      InsertListing(m1, m - {k});
      MergeOne(m0, m, k);
    }
  }

  /** Any customer table survives being written and read back. */
  lemma StoreRoundTrip(m: Store)
    ensures ParseStore(PrintStore(m)) == m
  {
    ParseLinesOf(StoreLines(Listing(m)), 2);
    InsertListing(map[], m);
  }

  /** The listing holds exactly the table's entries, in ascending order of customer. */
  lemma {:induction false} ListingAscends(m: Store)
    ensures |Listing(m)| == |m|
    ensures forall i | 0 <= i < |Listing(m)| :: Listing(m)[i].0 in m && Listing(m)[i].1 == m[Listing(m)[i].0]
    ensures forall i, j | 0 <= i < j < |Listing(m)| :: Listing(m)[i].0 < Listing(m)[j].0
    decreases |m|
  {
    if m != map[] {
      var k := MinKey(m.Keys);
      var rest := m - {k};
      ListingAscends(rest);
      assert |rest.Keys| == |m.Keys - {k}| == |m| - 1 && rest.Keys == m.Keys - {k};
      assert Listing(m) == [(k, m[k])] + Listing(rest);
      hide Listing, MinKey;
    }
  }
}
