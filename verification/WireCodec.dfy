/** The transaction message: a variable-length layout of big-endian words in a fixed buffer. */
module WireCodec {
  import opened Records

  type Byte = x: int | 0 <= x < 0x100

  const BUFFER_SIZE := 200000

  /** The two's complement bytes of an `int`, most significant first (network byte order). */
  function IntBytes(v: Int32): (b: seq<Byte>)
    ensures |b| == 4
  {
    var u: int := if v < 0 then v + 0x1_0000_0000 else v;
    [u / 0x100_0000, u / 0x1_0000 % 0x100, u / 0x100 % 0x100, u % 0x100]
  }

  function BytesInt(b: seq<Byte>): Int32
    requires |b| == 4
  {
    var b0: int, b1: int, b2: int, b3: int := b[0], b[1], b[2], b[3];
    var u := b0 * 0x100_0000 + b1 * 0x1_0000 + b2 * 0x100 + b3;
    if u < 0x8000_0000 then u else u - 0x1_0000_0000
  }

  lemma IntRoundTrip(v: Int32)
    ensures BytesInt(IntBytes(v)) == v
  {
    var u: int := if v < 0 then v + 0x1_0000_0000 else v;
    assert u / 0x1_0000 == u / 0x100_0000 * 0x100 + u / 0x1_0000 % 0x100;
    assert u / 0x100 == u / 0x1_0000 * 0x100 + u / 0x100 % 0x100;
    assert u == u / 0x100 * 0x100 + u % 0x100;
  }

  lemma BytesRoundTrip(b: seq<Byte>)
    requires |b| == 4
    ensures IntBytes(BytesInt(b)) == b
  {
    var b0: int, b1: int, b2: int, b3: int := b[0], b[1], b[2], b[3];
    var u := b0 * 0x100_0000 + b1 * 0x1_0000 + b2 * 0x100 + b3;
    assert u / 0x100_0000 == b0;
    assert u / 0x1_0000 == b0 * 0x100 + b1;
    assert u / 0x100 == b0 * 0x1_0000 + b1 * 0x100 + b2;
  }

  /** The bytes of a run of words. */
  function Bytes(words: seq<Int32>): (b: seq<Byte>)
    ensures |b| == 4 * |words|
  {
    if words == [] then [] else Bytes(words[..|words| - 1]) + IntBytes(words[|words| - 1])
  }

  /** The whole words a buffer holds. */
  function WordsOf(b: seq<Byte>): (words: seq<Int32>)
    ensures |words| == |b| / 4
  {
    seq(|b| / 4, k requires 0 <= k < |b| / 4 => BytesInt(b[4 * k..4 * k + 4]))
  }

  lemma {:induction false} WordOfBytes(words: seq<Int32>, trailing: seq<Byte>, k: nat)
    requires k < |words|
    ensures WordsOf(Bytes(words) + trailing)[k] == words[k]
  {
    var n := |words| - 1;
    var last := IntBytes(words[n]);
    assert Bytes(words) + trailing == Bytes(words[..n]) + (last + trailing);
    if k == n {
      assert (Bytes(words[..n]) + (last + trailing))[4 * n..4 * n + 4] == last;
      IntRoundTrip(words[n]);
    } else {
      WordOfBytes(words[..n], last + trailing, k);
    }
  }

  /** Reading the words back gives the words written, whatever bytes follow them. */
  lemma WordsOfBytes(words: seq<Int32>, trailing: seq<Byte>)
    ensures words <= WordsOf(Bytes(words) + trailing)
  {
    forall k | 0 <= k < |words|
      ensures WordsOf(Bytes(words) + trailing)[k] == words[k]
    {
      WordOfBytes(words, trailing, k);
    }
  }

  /** Writing the words of a buffer gives its bytes back. */
  lemma {:induction false} BytesOfWords(b: seq<Byte>, words: seq<Int32>)
    requires |words| <= |WordsOf(b)| && words == WordsOf(b)[..|words|]
    ensures Bytes(words) == b[..4 * |words|]
  {
    if words != [] {
      var n := |words| - 1;
      assert words[..n] == WordsOf(b)[..n] && words[n] == WordsOf(b)[n];
      BytesOfWords(b, words[..n]);
      BytesRoundTrip(b[4 * n..4 * n + 4]);
      assert b[..4 * n + 4] == b[..4 * n] + b[4 * n..4 * n + 4];
    }
  }

  /** The value of a message object. The two length fields are set apart from the vectors they describe. */
  datatype Message = Message(id: Int32, lenReads: Int32, lenWrites: Int32, readSet: seq<CustRec>, writeSet: seq<Order>) {
    predicate LengthsMatch() { lenReads == |readSet| && lenWrites == |writeSet| }

    /** The number of bytes the sender hands to the socket. */
    function Size(): int {
      var r: int, w: int := lenReads, lenWrites;
      12 + 8 * r + 12 * w
    }
  }

  function ReadWords(rs: seq<CustRec>): (w: seq<Int32>)
    ensures |w| == 2 * |rs|
  {
    if rs == [] then [] else
      var r := rs[|rs| - 1];
      ReadWords(rs[..|rs| - 1]) + [r.cid, r.last]
  }

  function WriteWords(ws: seq<Order>): (w: seq<Int32>)
    ensures |w| == 3 * |ws|
  {
    if ws == [] then [] else
      var o := ws[|ws| - 1];
      WriteWords(ws[..|ws| - 1]) + [o.cid, o.num, o.typ]
  }

  function Header(m: Message): (w: seq<Int32>)
    ensures |w| == 3
  {
    [m.id, m.lenReads, m.lenWrites]
  }

  function Words(m: Message): (w: seq<Int32>)
    ensures |w| == 3 + 2 * |m.readSet| + 3 * |m.writeSet|
  {
    Header(m) + ReadWords(m.readSet) + WriteWords(m.writeSet)
  }

  function Encode(m: Message): (b: seq<Byte>)
    ensures |b| == 12 + 8 * |m.readSet| + 12 * |m.writeSet|
    ensures m.LengthsMatch() ==> |b| == m.Size()
  {
    Bytes(Words(m))
  }

  function Clip(n: int): nat {
    if n < 0 then 0 else n
  }

  function DecodeReads(w: seq<Int32>, n: int): (rs: seq<CustRec>)
    requires 2 * n <= |w|
    ensures |rs| == Clip(n)
  {
    if n <= 0 then [] else DecodeReads(w, n - 1) + [CustRec(w[2 * n - 2], w[2 * n - 1])]
  }

  function DecodeWrites(w: seq<Int32>, n: int): (ws: seq<Order>)
    requires 3 * n <= |w|
    ensures |ws| == Clip(n)
  {
    if n <= 0 then [] else DecodeWrites(w, n - 1) + [Order(w[3 * n - 3], w[3 * n - 2], w[3 * n - 1])]
  }

  /** The words of a whole message: the header and as many entries as the header announces. */
  predicate HoldsWords(w: seq<Int32>) {
    3 <= |w| && 3 + 2 * Clip(w[1]) + 3 * Clip(w[2]) <= |w|
  }

  predicate Holds(b: seq<Byte>) {
    HoldsWords(WordsOf(b))
  }

  function DecodeWords(w: seq<Int32>): Message
    requires HoldsWords(w)
  {
    Message(w[0], w[1], w[2], DecodeReads(w[3..], w[1]), DecodeWrites(w[3 + 2 * Clip(w[1])..], w[2]))
  }

  function Decode(b: seq<Byte>): Message
    requires Holds(b)
  {
    DecodeWords(WordsOf(b))
  }

  lemma {:induction false} ReadsRoundTrip(rs: seq<CustRec>, w: seq<Int32>)
    requires ReadWords(rs) <= w
    ensures DecodeReads(w, |rs|) == rs
  {
    if rs != [] {
      var init := rs[..|rs| - 1];
      assert ReadWords(init) == ReadWords(rs)[..2 * |init|];
      ReadsRoundTrip(init, w);
    }
  }

  lemma {:induction false} WritesRoundTrip(ws: seq<Order>, w: seq<Int32>)
    requires WriteWords(ws) <= w
    ensures DecodeWrites(w, |ws|) == ws
  {
    if ws != [] {
      var init := ws[..|ws| - 1];
      assert WriteWords(init) == WriteWords(ws)[..3 * |init|];
      WritesRoundTrip(init, w);
    }
  }

  lemma PrefixParts(a: seq<Int32>, b: seq<Int32>, c: seq<Int32>, w: seq<Int32>)
    requires a + b + c <= w
    ensures a <= w && b <= w[|a|..] && c <= w[|a| + |b|..]
  {
    assert w[..|a|] == (a + b + c)[..|a|] == a;
    assert w[|a|..][..|b|] == (a + b + c)[|a|..|a| + |b|] == b;
    assert w[|a| + |b|..][..|c|] == (a + b + c)[|a| + |b|..] == c;
  }

  lemma DecodeWordsOf(m: Message, w: seq<Int32>)
    requires m.LengthsMatch() && Words(m) <= w
    ensures HoldsWords(w) && DecodeWords(w) == m
  {
    PrefixParts(Header(m), ReadWords(m.readSet), WriteWords(m.writeSet), w);
    assert w[..3] == Header(m);
    ReadsRoundTrip(m.readSet, w[3..]);
    WritesRoundTrip(m.writeSet, w[3 + 2 * |m.readSet|..]);
  }

  /** Decoding undoes encoding, whatever bytes follow: the layout delimits itself. */
  lemma DecodeEncode(m: Message, trailing: seq<Byte>)
    requires m.LengthsMatch()
    ensures Holds(Encode(m) + trailing)
    ensures Decode(Encode(m) + trailing) == m
  {
    WordsOfBytes(Words(m), trailing);
    DecodeWordsOf(m, WordsOf(Encode(m) + trailing));
  }

  lemma DecodeReadsStep(w: seq<Int32>, n: nat)
    requires 0 < n && 2 * n <= |w|
    ensures DecodeReads(w, n) == DecodeReads(w, n - 1) + [CustRec(w[2 * n - 2], w[2 * n - 1])]
  {
  }

  lemma TakeTwo(w: seq<Int32>, k: nat)
    requires 2 <= k <= |w|
    ensures w[..k] == w[..k - 2] + [w[k - 2], w[k - 1]]
  {
  }

  lemma {:induction false} ReadsReencode(w: seq<Int32>, n: nat)
    requires 2 * n <= |w|
    ensures ReadWords(DecodeReads(w, n)) == w[..2 * n]
  {
    if n > 0 {
      hide DecodeReads, ReadWords;
      ReadsReencode(w, n - 1);
      DecodeReadsStep(w, n);
      ReadWordsSnoc(DecodeReads(w, n - 1), CustRec(w[2 * n - 2], w[2 * n - 1]));
      TakeTwo(w, 2 * n);
    }
  }

  lemma TakeThree(w: seq<Int32>, k: nat)
    requires 3 <= k <= |w|
    ensures w[..k] == w[..k - 3] + [w[k - 3], w[k - 2], w[k - 1]]
  {
  }

  lemma WriteWordsSnoc(ws: seq<Order>, o: Order)
    ensures WriteWords(ws + [o]) == WriteWords(ws) + [o.cid, o.num, o.typ]
  {
    assert (ws + [o])[..|ws|] == ws;
  }

  lemma ReadWordsSnoc(rs: seq<CustRec>, r: CustRec)
    ensures ReadWords(rs + [r]) == ReadWords(rs) + [r.cid, r.last]
  {
    assert (rs + [r])[..|rs|] == rs;
  }

  lemma DecodeWritesStep(w: seq<Int32>, n: nat)
    requires 0 < n && 3 * n <= |w|
    ensures DecodeWrites(w, n) == DecodeWrites(w, n - 1) + [Order(w[3 * n - 3], w[3 * n - 2], w[3 * n - 1])]
  {
  }

  lemma {:induction false} WritesReencode(w: seq<Int32>, n: nat)
    requires 3 * n <= |w|
    ensures WriteWords(DecodeWrites(w, n)) == w[..3 * n]
  {
    if n > 0 {
      hide DecodeWrites, WriteWords;
      WritesReencode(w, n - 1);
      DecodeWritesStep(w, n);
      WriteWordsSnoc(DecodeWrites(w, n - 1), Order(w[3 * n - 3], w[3 * n - 2], w[3 * n - 1]));
      TakeThree(w, 3 * n);
    }
  }

  lemma JoinParts(a: seq<Int32>, b: seq<Int32>, c: seq<Int32>, w: seq<Int32>)
    requires |a| + |b| + |c| <= |w|
    requires a == w[..|a|] && b == w[|a|..][..|b|] && c == w[|a| + |b|..][..|c|]
    ensures a + b + c == w[..|a| + |b| + |c|]
  {
    var (i, j) := (|a|, |a| + |b|);
    assert b == w[i..j];
    assert c == w[j..j + |c|];
  }

  lemma WordsOfDecoded(w: seq<Int32>, r: nat, n: nat)
    requires HoldsWords(w) && w[1] == r && w[2] == n
    ensures Words(DecodeWords(w)) == w[..3 + 2 * r + 3 * n]
  {
    hide DecodeReads, DecodeWrites, ReadWords, WriteWords;
    var (rs, ws) := (DecodeReads(w[3..], r), DecodeWrites(w[3 + 2 * r..], n));
    ReadsReencode(w[3..], r);
    WritesReencode(w[3 + 2 * r..], n);
    JoinParts(w[..3], ReadWords(rs), WriteWords(ws), w);
    assert DecodeWords(w) == Message(w[0], r, n, rs, ws);
  }

  /** Encoding undoes decoding: a buffer with non-negative counts starts with the encoding of its message. */
  lemma EncodeDecode(b: seq<Byte>)
    requires Holds(b) && WordsOf(b)[1] >= 0 && WordsOf(b)[2] >= 0
    ensures Decode(b).LengthsMatch()
    ensures Encode(Decode(b)) == b[..Decode(b).Size()]
  {
    WordsOfDecoded(WordsOf(b), WordsOf(b)[1], WordsOf(b)[2]);
    BytesOfWords(b, Words(Decode(b)));
  }

  /** The receiver finds the message in a buffer that holds its first `got` bytes and then whatever was there. */
  predicate ReadsBack(m: Message, got: nat, rest: seq<Byte>)
    requires m.LengthsMatch() && got <= m.Size()
  {
    var b := Encode(m)[..got] + rest;
    Holds(b) && Decode(b) == m
  }

  lemma ChangedByte(m: Message, got: nat) returns (rest: seq<Byte>)
    requires m.LengthsMatch() && got < m.Size()
    ensures |rest| == m.Size() - got && !ReadsBack(m, got, rest)
  {
    var e := Encode(m);
    rest := e[got..];
    var x: int := rest[0];
    rest := rest[0 := (x + 1) % 0x100];
    var b := e[..got] + rest;
    assert b[got] != e[got] && b[..m.Size()] == b;
    if Holds(b) && Decode(b) == m {
      WordsHold(b);
      EncodeDecode(b);
    }
  }

  lemma WordsHold(b: seq<Byte>)
    requires Holds(b)
    ensures WordsOf(b)[1] == Decode(b).lenReads && WordsOf(b)[2] == Decode(b).lenWrites
  {
  }

  /** The receiving stub calls `recv` once, and one call may return less than was sent: the message can be relied
      on exactly when that one call returned all of it. */
  lemma ReceivedExactlyWhenWhole(m: Message, got: nat)
    requires m.LengthsMatch() && got <= m.Size()
    ensures (forall rest | |rest| >= m.Size() - got :: ReadsBack(m, got, rest)) <==> got == m.Size()
  {
    if got == m.Size() {
      forall rest: seq<Byte>
        ensures ReadsBack(m, got, rest)
      {
        DecodeEncode(m, rest);
        assert Encode(m)[..got] == Encode(m);
      }
    } else {
      var _ := ChangedByte(m, got);
    }
  }

  /** The buffer `b` is `was` with its front overwritten by `words`. */
  ghost predicate Overwrites(b: seq<Byte>, was: seq<Byte>, words: seq<Int32>) {
    4 * |words| <= |was| && b == Bytes(words) + was[4 * |words|..]
  }

  lemma AppendWord(b: seq<Byte>, was: seq<Byte>, words: seq<Int32>, v: Int32)
    requires Overwrites(b, was, words) && 4 * |words| + 4 <= |b|
    ensures var o := 4 * |words|; Overwrites(b[..o] + IntBytes(v) + b[o + 4..], was, words + [v])
  {
    var o := 4 * |words|;
    assert b[..o] == Bytes(words) && b[o + 4..] == was[o + 4..];
    assert (words + [v])[..|words|] == words;
  }

  /** The words that fit a buffer of `size` bytes. */
  function Fitting(words: seq<Int32>, size: nat): (w: seq<Int32>)
    ensures w <= words
  {
    if 4 * |words| <= size then words else words[..size / 4]
  }

  /** The buffer after marshalling `words` until the first of them that does not fit; `fits` tells if there was none. */
  ghost predicate Marshalled(b: seq<Byte>, was: seq<Byte>, words: seq<Int32>, fits: bool) {
    && |b| == |was| && (fits <==> 4 * |words| <= |was|)
    && Overwrites(b, was, Fitting(words, |was|))
  }

  lemma NothingMarshalled(b: seq<Byte>)
    ensures Marshalled(b, b, [], true)
  {
  }

  lemma MarshalledMeans(r: nat, w: nat, was: seq<Byte>, words: seq<Int32>)
    requires |words| == 3 + 2 * r + 3 * w
    ensures forall b, fits | Marshalled(b, was, words, fits) ::
              (fits <==> 12 + 8 * r + 12 * w <= |was|) && |b| == |was|
              && Overwrites(b, was, Fitting(words, |was|))
  {
  }

  /** A word that does not fit. */
  lemma MissWord(b: seq<Byte>, was: seq<Byte>, words: seq<Int32>, fits: bool, v: Int32)
    requires Marshalled(b, was, words, fits) && (fits ==> 4 * |words| + 4 > |b|)
    ensures Marshalled(b, was, words + [v], false)
  {
    hide Overwrites;
    assert Fitting(words + [v], |was|) == Fitting(words, |was|);
  }

  // ---- The layout, byte by byte ----

  /** The byte order: the first byte is the most significant of the 32 bits, in two's complement. */
  lemma BigEndian(v: Int32)
    ensures var b := IntBytes(v);
            var w: int := v;
            var b0: int, b1: int, b2: int, b3: int := b[0], b[1], b[2], b[3];
            ((b0 * 256 + b1) * 256 + b2) * 256 + b3 == if w >= 0 then w else w + 0x1_0000_0000
  {
    var u: int := if v < 0 then v + 0x1_0000_0000 else v;
    assert u / 0x1_0000 == u / 0x100_0000 * 0x100 + u / 0x1_0000 % 0x100;
    assert u / 0x100 == u / 0x1_0000 * 0x100 + u / 0x100 % 0x100;
  }

  lemma {:induction false} BytesAt(words: seq<Int32>, k: nat)
    requires k < |words|
    ensures Bytes(words)[4 * k..4 * k + 4] == IntBytes(words[k])
  {
    var n := |words| - 1;
    if k < n {
      BytesAt(words[..n], k);
      assert Bytes(words)[4 * k..4 * k + 4] == Bytes(words[..n])[4 * k..4 * k + 4];
    }
  }

  lemma {:induction false} ReadWordsAt(rs: seq<CustRec>, i: nat)
    requires i < |rs|
    ensures ReadWords(rs)[2 * i] == rs[i].cid && ReadWords(rs)[2 * i + 1] == rs[i].last
  {
    if i < |rs| - 1 {
      ReadWordsAt(rs[..|rs| - 1], i);
    }
  }

  lemma {:induction false} WriteWordsAt(ws: seq<Order>, i: nat)
    requires i < |ws|
    ensures WriteWords(ws)[3 * i] == ws[i].cid && WriteWords(ws)[3 * i + 1] == ws[i].num
    ensures WriteWords(ws)[3 * i + 2] == ws[i].typ
  {
    if i < |ws| - 1 {
      WriteWordsAt(ws[..|ws| - 1], i);
    }
  }

  /** The field at each offset: id, the two lengths, then customer and last order of each read, then customer, number
      and type of each order. */
  lemma FieldAt(m: Message, i: nat)
    ensures var e := Encode(m);
            && e[0..4] == IntBytes(m.id) && e[4..8] == IntBytes(m.lenReads) && e[8..12] == IntBytes(m.lenWrites)
            && (i < |m.readSet| ==>
                  var o := 12 + 8 * i;
                  e[o..o + 4] == IntBytes(m.readSet[i].cid) && e[o + 4..o + 8] == IntBytes(m.readSet[i].last))
            && (i < |m.writeSet| ==>
                  var o := 12 + 8 * |m.readSet| + 12 * i;
                  && e[o..o + 4] == IntBytes(m.writeSet[i].cid) && e[o + 4..o + 8] == IntBytes(m.writeSet[i].num)
                  && e[o + 8..o + 12] == IntBytes(m.writeSet[i].typ))
  {
    hide Bytes, IntBytes, Words;
    HeaderBytes(m);
    if i < |m.readSet| {
      ReadBytes(m, i);
    }
    if i < |m.writeSet| {
      WriteBytes(m, i);
    }
  }

  lemma HeaderBytes(m: Message)
    ensures var e := Encode(m);
            e[0..4] == IntBytes(m.id) && e[4..8] == IntBytes(m.lenReads) && e[8..12] == IntBytes(m.lenWrites)
  {
    WordsOfHeader(m);
    hide Bytes, IntBytes, Words;
    BytesAt(Words(m), 0);
    BytesAt(Words(m), 1);
    BytesAt(Words(m), 2);
  }

  lemma ReadBytes(m: Message, i: nat)
    requires i < |m.readSet|
    ensures var (e, o) := (Encode(m), 12 + 8 * i);
            e[o..o + 4] == IntBytes(m.readSet[i].cid) && e[o + 4..o + 8] == IntBytes(m.readSet[i].last)
  {
    WordsOfRead(m, i);
    hide Bytes, IntBytes, Words;
    BytesAt(Words(m), 3 + 2 * i);
    BytesAt(Words(m), 4 + 2 * i);
  }

  lemma WriteBytes(m: Message, i: nat)
    requires i < |m.writeSet|
    ensures var (e, o) := (Encode(m), 12 + 8 * |m.readSet| + 12 * i);
            && e[o..o + 4] == IntBytes(m.writeSet[i].cid) && e[o + 4..o + 8] == IntBytes(m.writeSet[i].num)
            && e[o + 8..o + 12] == IntBytes(m.writeSet[i].typ)
  {
    WordsOfWrite(m, i);
    hide Bytes, IntBytes, Words;
    var k := 3 + 2 * |m.readSet| + 3 * i;
    BytesAt(Words(m), k);
    BytesAt(Words(m), k + 1);
    BytesAt(Words(m), k + 2);
  }

  lemma WordsOfHeader(m: Message)
    ensures var w := Words(m); w[0] == m.id && w[1] == m.lenReads && w[2] == m.lenWrites
  {
  }

  lemma WordsOfRead(m: Message, i: nat)
    requires i < |m.readSet|
    ensures var w := Words(m); w[3 + 2 * i] == m.readSet[i].cid && w[4 + 2 * i] == m.readSet[i].last
  {
    ReadWordsAt(m.readSet, i);
    hide ReadWords, WriteWords;
  }

  lemma WordsOfWrite(m: Message, i: nat)
    requires i < |m.writeSet|
    ensures var (w, k) := (Words(m), 3 + 2 * |m.readSet| + 3 * i);
            w[k] == m.writeSet[i].cid && w[k + 1] == m.writeSet[i].num && w[k + 2] == m.writeSet[i].typ
  {
    WriteWordsAt(m.writeSet, i);
    hide ReadWords, WriteWords;
  }

  /** The message object, with the vectors `Unmarshal` appends to. */
  class Transaction {
    var id: Int32
    var lenReads: Int32
    var lenWrites: Int32
    var readSet: seq<CustRec>
    var writeSet: seq<Order>

    constructor ()
      ensures readSet == [] && writeSet == []
    {
      readSet, writeSet := [], [];
    }

    function Value(): Message
      reads this
    {
      Message(id, lenReads, lenWrites, readSet, writeSet)
    }

    method SetTxnId(n: Int32)
      modifies this
      ensures Value() == old(Value()).(id := n)
    {
      id := n;
    }

    /** Copies one word into the buffer behind the words already there. The source does not look at the buffer's end;
        a word beyond it, and whatever comes after that word, is not written here. */
    static method PutInt(buffer: array<Byte>, offset: nat, ok: bool, v: Int32, ghost was: seq<Byte>, ghost words: seq<Int32>)
      returns (next: nat, fits: bool)
      requires offset == 4 * |words| && Marshalled(buffer[..], was, words, ok)
      modifies buffer
      ensures next == offset + 4 && Marshalled(buffer[..], was, words + [v], fits)
    {
      hide Overwrites, Bytes, IntBytes;
      next, fits := offset + 4, ok && offset + 4 <= buffer.Length;
      if fits {
        var b := IntBytes(v);
        AppendWord(buffer[..], was, words, v);
        buffer[offset], buffer[offset + 1], buffer[offset + 2], buffer[offset + 3] := b[0], b[1], b[2], b[3];
        assert buffer[..] == old(buffer[..])[..offset] + b + old(buffer[..])[offset + 4..];
      } else {
        MissWord(buffer[..], was, words, ok, v);
      }
    }

    static method PutRead(buffer: array<Byte>, offset: nat, ok: bool, r: CustRec, ghost was: seq<Byte>, ghost words: seq<Int32>)
      returns (next: nat, fits: bool)
      requires offset == 4 * |words| && Marshalled(buffer[..], was, words, ok)
      modifies buffer
      ensures next == offset + 8 && Marshalled(buffer[..], was, words + [r.cid, r.last], fits)
    {
      hide Marshalled;
      next, fits := PutInt(buffer, offset, ok, r.cid, was, words);
      next, fits := PutInt(buffer, next, fits, r.last, was, words + [r.cid]);
      assert words + [r.cid] + [r.last] == words + [r.cid, r.last];
    }

    static method PutWrite(buffer: array<Byte>, offset: nat, ok: bool, o: Order, ghost was: seq<Byte>, ghost words: seq<Int32>)
      returns (next: nat, fits: bool)
      requires offset == 4 * |words| && Marshalled(buffer[..], was, words, ok)
      modifies buffer
      ensures next == offset + 12 && Marshalled(buffer[..], was, words + [o.cid, o.num, o.typ], fits)
    {
      hide Marshalled;
      next, fits := PutInt(buffer, offset, ok, o.cid, was, words);
      next, fits := PutInt(buffer, next, fits, o.num, was, words + [o.cid]);
      next, fits := PutInt(buffer, next, fits, o.typ, was, words + [o.cid] + [o.num]);
      assert words + [o.cid] + [o.num] + [o.typ] == words + [o.cid, o.num, o.typ];
    }

    /** Every offset stays inside the buffer exactly when 12 + 8r + 12w does; then the buffer starts with exactly the
        encoding and its rest is left alone. */
    method Marshal(buffer: array<Byte>) returns (fits: bool)
      modifies buffer
      ensures fits <==> 12 + 8 * |readSet| + 12 * |writeSet| <= buffer.Length
      ensures Overwrites(buffer[..], old(buffer[..]), Fitting(Words(Value()), buffer.Length))
    {
      ghost var was := buffer[..];
      ghost var head := Header(Value());
      NothingMarshalled(was);
      var offset;
      MarshalledMeans(|readSet|, |writeSet|, was, Words(Value()));
      hide Overwrites, Marshalled, Fitting;
      assert head == [id] + [lenReads] + [lenWrites];
      offset, fits := PutInt(buffer, 0, true, id, was, []);
      assert [] + [id] == [id];
      offset, fits := PutInt(buffer, offset, fits, lenReads, was, [id]);
      offset, fits := PutInt(buffer, offset, fits, lenWrites, was, [id] + [lenReads]);
      offset, fits := PutReads(buffer, offset, fits, was, head);
      offset, fits := PutWrites(buffer, offset, fits, was, head + ReadWords(readSet));
    }

    method PutReads(buffer: array<Byte>, start: nat, ok: bool, ghost was: seq<Byte>, ghost head: seq<Int32>)
      returns (offset: nat, fits: bool)
      requires start == 4 * |head| && Marshalled(buffer[..], was, head, ok)
      modifies buffer
      ensures offset == start + 8 * |readSet| && Marshalled(buffer[..], was, head + ReadWords(readSet), fits)
    {
      hide Marshalled;
      offset, fits := start, ok;
      assert head == head + ReadWords(readSet[..0]);
      for i := 0 to |readSet|
        invariant offset == start + 8 * i
        invariant Marshalled(buffer[..], was, head + ReadWords(readSet[..i]), fits)
      {
        offset, fits := PutRead(buffer, offset, fits, readSet[i], was, head + ReadWords(readSet[..i]));
        assert readSet[..i + 1][..i] == readSet[..i];
        assert head + ReadWords(readSet[..i]) + [readSet[i].cid, readSet[i].last] == head + ReadWords(readSet[..i + 1]);
      }
      assert readSet[..|readSet|] == readSet;
    }

    method PutWrites(buffer: array<Byte>, start: nat, ok: bool, ghost was: seq<Byte>, ghost front: seq<Int32>)
      returns (offset: nat, fits: bool)
      requires start == 4 * |front| && Marshalled(buffer[..], was, front, ok)
      modifies buffer
      ensures offset == start + 12 * |writeSet| && Marshalled(buffer[..], was, front + WriteWords(writeSet), fits)
    {
      hide Marshalled;
      offset, fits := start, ok;
      assert front == front + WriteWords(writeSet[..0]);
      for i := 0 to |writeSet|
        invariant offset == start + 12 * i
        invariant Marshalled(buffer[..], was, front + WriteWords(writeSet[..i]), fits)
      {
        var o := writeSet[i];
        offset, fits := PutWrite(buffer, offset, fits, o, was, front + WriteWords(writeSet[..i]));
        assert writeSet[..i + 1][..i] == writeSet[..i];
        assert front + WriteWords(writeSet[..i]) + [o.cid, o.num, o.typ] == front + WriteWords(writeSet[..i + 1]);
      }
      assert writeSet[..|writeSet|] == writeSet;
    }

    /** Appends `n` read records found in `tail`. */
    method TakeReads(tail: seq<Int32>, n: Int32)
      requires 2 * Clip(n) <= |tail|
      modifies `readSet
      ensures readSet == old(readSet) + DecodeReads(tail, n)
    {
      var i: int := 0;
      while i < n
        invariant 0 <= i <= Clip(n)
        invariant readSet == old(readSet) + DecodeReads(tail, i)
      {
        readSet := readSet + [CustRec(tail[2 * i], tail[2 * i + 1])];
        i := i + 1;
      }
      assert DecodeReads(tail, i) == DecodeReads(tail, n);
    }

    /** Appends `n` orders found in `tail`. */
    method TakeWrites(tail: seq<Int32>, n: Int32)
      requires 3 * Clip(n) <= |tail|
      modifies `writeSet
      ensures writeSet == old(writeSet) + DecodeWrites(tail, n)
    {
      var j: int := 0;
      while j < n
        invariant 0 <= j <= Clip(n)
        invariant writeSet == old(writeSet) + DecodeWrites(tail, j)
      {
        writeSet := writeSet + [Order(tail[3 * j], tail[3 * j + 1], tail[3 * j + 2])];
        j := j + 1;
      }
      assert DecodeWrites(tail, j) == DecodeWrites(tail, n);
    }

    /** Reads the announced entries behind those the object already holds. */
    method Unmarshal(buffer: array<Byte>)
      requires Holds(buffer[..])
      modifies this
      ensures Value() == var m := Decode(buffer[..]);
                         m.(readSet := old(readSet) + m.readSet, writeSet := old(writeSet) + m.writeSet)
    {
      hide WordsOf, DecodeReads, DecodeWrites;
      var w := WordsOf(buffer[..]);
      id, lenReads, lenWrites := w[0], w[1], w[2];
      TakeReads(w[3..], lenReads);
      TakeWrites(w[3 + 2 * Clip(lenReads)..], lenWrites);
    }
  }

  /** The socket: of the bytes sent, one `recv` puts the first `got` at the front of the receiver's buffer. */
  method Deliver(buffer: array<Byte>, got: nat, receiverBuffer: array<Byte>)
    requires got <= buffer.Length && got <= receiverBuffer.Length && buffer != receiverBuffer
    modifies receiverBuffer
    ensures receiverBuffer[..] == buffer[..got] + old(receiverBuffer[got..])
  {
    for i := 0 to got
      invariant receiverBuffer[..i] == buffer[..i]
      invariant receiverBuffer[i..] == old(receiverBuffer[i..])
    {
      receiverBuffer[i] := buffer[i];
    }
    assert receiverBuffer[..] == receiverBuffer[..got] + receiverBuffer[got..];
  }

  /** The sending stub: marshal into a fresh buffer and hand its first `Size()` bytes to the socket. The stub does not
      ask whether the message fits; when it does not, nothing is said of what happens next. */
  method Send(sender: Transaction, receiverBuffer: array<Byte>, got: nat) returns (fits: bool)
    requires sender.Value().LengthsMatch() && got <= sender.Value().Size() && BUFFER_SIZE == receiverBuffer.Length
    modifies receiverBuffer
    ensures fits <==> sender.Value().Size() <= BUFFER_SIZE
    ensures receiverBuffer[..] == if fits then Encode(sender.Value())[..got] + old(receiverBuffer[..])[got..]
                                  else old(receiverBuffer[..])
  {
    var buffer := new Byte[BUFFER_SIZE];
    fits := sender.Marshal(buffer);
    if fits {
      var size := sender.Value().Size();
      assert buffer[..size] == Encode(sender.Value());
      Deliver(buffer, got, receiverBuffer);
      assert buffer[..got] == buffer[..size][..got];
    }
  }

  /** The receiving stub: unmarshal into a fresh object. */
  method Receive(receiverBuffer: array<Byte>, ghost m: Message, ghost trailing: seq<Byte>) returns (received: Transaction)
    requires m.LengthsMatch() && receiverBuffer[..] == Encode(m) + trailing
    ensures fresh(received) && received.Value() == m
  {
    hide Encode, Decode, Holds;
    DecodeEncode(m, trailing);
    received := new Transaction();
    received.Unmarshal(receiverBuffer);
  }

  /** Client to transaction manager to resource manager, each `recv` returning a whole message: exactly when the
      message fits the stubs' buffers it arrives, with only the transaction id replaced. */
  method ClientToResourceManager(sender: Transaction, tmBuffer: array<Byte>, rmBuffer: array<Byte>, txnId: Int32)
    returns (received: Transaction?)
    requires sender.Value().LengthsMatch() && tmBuffer != rmBuffer
    requires BUFFER_SIZE == tmBuffer.Length == rmBuffer.Length
    modifies tmBuffer, rmBuffer
    ensures received != null <==> old(sender.Value()).Size() <= BUFFER_SIZE
    ensures received != null ==> received.Value() == old(sender.Value()).(id := txnId)
  {
    var m := sender.Value();
    var sent := Send(sender, tmBuffer, m.Size());
    if !sent {
      return null;
    }
    assert Encode(m)[..m.Size()] == Encode(m);
    var atManager := Receive(tmBuffer, m, old(tmBuffer[..])[m.Size()..]);
    atManager.SetTxnId(txnId);
    var n := atManager.Value();
    sent := Send(atManager, rmBuffer, n.Size());
    assert Encode(n)[..n.Size()] == Encode(n);
    received := Receive(rmBuffer, n, old(rmBuffer[..])[n.Size()..]);
  }
}
