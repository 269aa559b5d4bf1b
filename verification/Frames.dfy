/** The wire format of messages: id, length, data.  Parsing a stream does not depend on how the
    stream is cut into pieces. */
module Frames {
  import opened Wrappers
  import opened Sequences
  import opened Bytes

  datatype Message = Message(id: nat, data: seq<Byte>)

  /** An id and a length are 32-bit words. */
  type Frame = m: Message | m.id < WORD && |m.data| < WORD witness Message(0, [])

  // ----- words in memory order

  /** memcpy of a 32-bit word, lowest byte first. */
  function Le32(n: nat): (s: seq<Byte>)
    requires n < WORD
    ensures |s| == 4
  {
    [LowByte(n), LowByte(n / 256), LowByte(n / 65536), LowByte(n / 16777216)]
  }

  /** Reading a word back. */
  function Val(s: seq<Byte>): (n: nat)
    requires |s| == 4
    ensures n < WORD
  {
    (s[0] as nat) + 256 * (s[1] as nat) + 65536 * (s[2] as nat) + 16777216 * (s[3] as nat)
  }

  lemma ValOfLe32(n: nat)
    requires n < WORD
    ensures Val(Le32(n)) == n
  {
    var a, b, c := n / 256, n / 65536, n / 16777216;
    Quotients(n);
    assert n == 256 * a + n % 256 && a == 256 * b + a % 256 && b == 256 * c + b % 256;
  }

  lemma Quotients(n: nat)
    ensures n / 256 / 256 == n / 65536 && n / 65536 / 256 == n / 16777216
  {
  }

  /** The lowest byte of a sum, and what is above it. */
  lemma LowestByte(a: Byte, rest: nat)
    ensures (a + 256 * rest) % 256 == a && (a + 256 * rest) / 256 == rest
  {
  }

  lemma Le32OfVal(s: seq<Byte>)
    requires |s| == 4
    ensures Le32(Val(s)) == s
  {
    var n := Val(s);
    var a: nat, b: nat, c: nat, d: nat := s[0], s[1], s[2], s[3];
    LowestByte(a, b + 256 * (c + 256 * d));
    LowestByte(b, c + 256 * d);
    LowestByte(c, d);
    Quotients(n);
  }

  // ----- frames

  /** What cmsg_send writes. */
  function Encode(f: Frame): (s: seq<Byte>)
    ensures |s| == 8 + |f.data|
  {
    Le32(f.id) + Le32(|f.data|) + f.data
  }

  function EncodeAll(fs: seq<Frame>): seq<Byte>
  {
    if fs == [] then [] else Encode(fs[0]) + EncodeAll(fs[1..])
  }

  /** The first frame of raw bytes and what follows it, if all of it has arrived. */
  function ParseOne(raw: seq<Byte>): (r: Option<(Frame, seq<Byte>)>)
    ensures r.Some? ==> |r.value.1| < |raw|
  {
    if |raw| < 8 then None else
    var len := Val(raw[4..8]);
    if |raw| - 8 < len then None
    else Some((Message(Val(raw[..4]), raw[8..8 + len]), raw[8 + len..]))
  }

  /** Parsing as far as possible. */
  function ParseAll(raw: seq<Byte>): (r: (seq<Frame>, seq<Byte>))
    decreases |raw|
  {
    match ParseOne(raw)
    case None => ([], raw)
    case Some((f, rest)) => var (fs, left) := ParseAll(rest); ([f] + fs, left)
  }

  /** A frame that was sent is parsed back, whatever follows it. */
  lemma ParseOfEncode(f: Frame, rest: seq<Byte>)
    ensures ParseOne(Encode(f) + rest) == Some((f, rest))
  {
    var s := Encode(f) + rest;
    ValOfLe32(f.id);
    ValOfLe32(|f.data|);
    assert s[..4] == Le32(f.id) && s[4..8] == Le32(|f.data|);
    assert s[8..8 + |f.data|] == f.data && s[8 + |f.data|..] == rest;
  }

  /** Only the bytes of a frame parse to it. */
  lemma EncodeOfParse(raw: seq<Byte>)
    requires ParseOne(raw).Some?
    ensures raw == Encode(ParseOne(raw).value.0) + ParseOne(raw).value.1
  {
    var len := Val(raw[4..8]);
    Le32OfVal(raw[..4]);
    Le32OfVal(raw[4..8]);
    assert raw == raw[..4] + raw[4..8] + raw[8..8 + len] + raw[8 + len..];
  }

  /** More bytes do not change a frame that is complete. */
  lemma ParseOneExtends(a: seq<Byte>, b: seq<Byte>)
    requires ParseOne(a).Some?
    ensures ParseOne(a + b) == Some((ParseOne(a).value.0, ParseOne(a).value.1 + b))
  {
    EncodeOfParse(a);
    var (f, rest) := ParseOne(a).value;
    assert a + b == Encode(f) + (rest + b);
    ParseOfEncode(f, rest + b);
  }

  /** Nothing is lost or made up: the frames and the left-over bytes are the bytes received. */
  lemma {:induction false} ParseConserves(raw: seq<Byte>)
    ensures EncodeAll(ParseAll(raw).0) + ParseAll(raw).1 == raw
    ensures ParseOne(ParseAll(raw).1).None?
    decreases |raw|
  {
    if ParseOne(raw).Some? {
      var (f, rest) := ParseOne(raw).value;
      EncodeOfParse(raw);
      ParseConserves(rest);
      var (fs, left) := ParseAll(rest);
      assert ([f] + fs)[1..] == fs;
      Associative(Encode(f), EncodeAll(fs), left);
    }
  }

  /** Parsing in two goes is parsing in one. */
  lemma {:induction false} ParseSplits(a: seq<Byte>, b: seq<Byte>)
    ensures var (f1, r1) := ParseAll(a);
      var (f2, r2) := ParseAll(r1 + b);
      ParseAll(a + b) == (f1 + f2, r2)
    decreases |a|
  {
    if ParseOne(a).Some? {
      var (f, rest) := ParseOne(a).value;
      ParseOneExtends(a, b);
      ParseSplits(rest, b);
      var (f1, r1) := ParseAll(rest);
      var (f2, r2) := ParseAll(r1 + b);
      Associative([f], f1, f2);
    } else {
      assert ParseAll(a) == ([], a);
      assert [] + ParseAll(a + b).0 == ParseAll(a + b).0;
    }
  }

  function Concat(chunks: seq<seq<Byte>>): seq<Byte> {
    if chunks == [] then [] else chunks[0] + Concat(chunks[1..])
  }

  /** Parsing chunk by chunk: the frames so far and the bytes left over. */
  function ParseChunks(left: seq<Byte>, chunks: seq<seq<Byte>>): (seq<Frame>, seq<Byte>)
    decreases |chunks|
  {
    if chunks == [] then ([], left) else
    var (f1, r1) := ParseAll(left + chunks[0]);
    var (f2, r2) := ParseChunks(r1, chunks[1..]);
    (f1 + f2, r2)
  }

  lemma {:induction false} ChunkingIrrelevant(left: seq<Byte>, chunks: seq<seq<Byte>>)
    requires ParseOne(left).None?
    ensures ParseChunks(left, chunks) == ParseAll(left + Concat(chunks))
    decreases |chunks|
  {
    if chunks == [] {
      assert left + [] == left;
    } else {
      var a, rest := left + chunks[0], Concat(chunks[1..]);
      assert left + (chunks[0] + rest) == a + rest;
      ParseConserves(a);
      ChunkingIrrelevant(ParseAll(a).1, chunks[1..]);
      ParseSplits(a, rest);
    }
  }

  lemma {:induction false} ParseOfEncodeAll(fs: seq<Frame>)
    ensures ParseAll(EncodeAll(fs)) == (fs, [])
  {
    if fs != [] {
      ParseOfEncode(fs[0], EncodeAll(fs[1..]));
      ParseOfEncodeAll(fs[1..]);
      assert fs == [fs[0]] + fs[1..];
    }
  }

  /** However the bytes of sent frames are cut, exactly these frames are parsed, in order. */
  lemma SentIsDelivered(fs: seq<Frame>, chunks: seq<seq<Byte>>)
    requires Concat(chunks) == EncodeAll(fs)
    ensures ParseChunks([], chunks) == (fs, [])
  {
    ChunkingIrrelevant([], chunks);
    assert [] + Concat(chunks) == Concat(chunks);
    ParseOfEncodeAll(fs);
  }

  /** The frames got are the first of fs, and what is left is less than the next one. */
  ghost predicate Caught(fs: seq<Frame>, got: seq<Frame>, left: seq<Byte>) {
    && got <= fs
    && (if got == fs then left == [] else left < Encode(fs[|got|]))
  }

  /** What has arrived of a stream of sent frames parses to the first of them, and what is left over
      is shorter than the next. */
  lemma {:induction false} PrefixParses(fs: seq<Frame>, raw: seq<Byte>)
    requires raw <= EncodeAll(fs)
    ensures Caught(fs, ParseAll(raw).0, ParseAll(raw).1)
    decreases |fs|
  {
    if fs != [] {
      var e, tail := Encode(fs[0]), EncodeAll(fs[1..]);
      if |e| <= |raw| {
        var rest := raw[|e|..];
        PrefixSplit(e, tail, raw);
        ParseOfEncode(fs[0], rest);
        PrefixParses(fs[1..], rest);
        CaughtOneMore(fs, ParseAll(rest).0, ParseAll(rest).1);
      } else {
        assert raw == e[..|raw|];
        ProperPrefixWaits(fs[0], raw);
      }
    }
  }

  lemma CaughtOneMore(fs: seq<Frame>, got: seq<Frame>, left: seq<Byte>)
    requires fs != [] && Caught(fs[1..], got, left)
    ensures Caught(fs, [fs[0]] + got, left)
  {
    assert [fs[0]] + fs[1..] == fs;
  }

  lemma PrefixSplit(a: seq<Byte>, b: seq<Byte>, raw: seq<Byte>)
    requires raw <= a + b && |a| <= |raw|
    ensures raw == a + raw[|a|..] && raw[|a|..] <= b
  {
    assert raw[..|a|] == (a + b)[..|a|];
    assert raw[|a|..] == (a + b)[|a|..|raw|];
  }

  /** An incomplete frame is not parsed. */
  lemma ProperPrefixWaits(f: Frame, raw: seq<Byte>)
    requires raw < Encode(f)
    ensures ParseOne(raw).None?
  {
    if |raw| >= 8 {
      assert raw[4..8] == Encode(f)[4..8] == Le32(|f.data|);
      ValOfLe32(|f.data|);
    }
  }

  /** Frames in front are parsed first, whatever follows. */
  lemma {:induction false} ParseBehind(fs: seq<Frame>, r: seq<Byte>)
    ensures ParseAll(EncodeAll(fs) + r) == (fs + ParseAll(r).0, ParseAll(r).1)
    decreases |fs|
  {
    if fs == [] {
      assert [] + r == r && [] + ParseAll(r).0 == ParseAll(r).0;
    } else {
      ParseBehind(fs[1..], r);
      ParseFront(fs[0], fs[1..], EncodeAll(fs[1..]), r, ParseAll(r).0, ParseAll(r).1);
      assert fs == [fs[0]] + fs[1..];
    }
  }

  lemma ParseFront(f: Frame, fs: seq<Frame>, e: seq<Byte>, r: seq<Byte>, more: seq<Frame>, left: seq<Byte>)
    requires ParseAll(e + r) == (fs + more, left)
    ensures ParseAll(Encode(f) + e + r) == ([f] + fs + more, left)
  {
    Associative(Encode(f), e, r);
    ParseOfEncode(f, e + r);
    ParseAllStep(Encode(f) + (e + r), f, e + r);
    Associative([f], fs, more);
  }

  lemma ParseAllStep(raw: seq<Byte>, f: Frame, rest: seq<Byte>)
    requires ParseOne(raw) == Some((f, rest))
    ensures ParseAll(raw) == ([f] + ParseAll(rest).0, ParseAll(rest).1)
  {
  }

  /** After parsing what has arrived of fs, a buffer of `capacity` bytes is never full. */
  ghost predicate NeverFull(fs: seq<Frame>, capacity: nat)
  {
    forall raw :: raw <= EncodeAll(fs) ==> |ParseAll(raw).1| < capacity
  }

  lemma {:induction false} EncodeAllSplit(fs: seq<Frame>, k: nat)
    requires k < |fs|
    ensures EncodeAll(fs[..k]) + Encode(fs[k]) <= EncodeAll(fs)
    decreases k
  {
    if k == 0 {
      assert [] + Encode(fs[0]) == Encode(fs[0]);
    } else {
      EncodeAllSplit(fs[1..], k - 1);
      assert fs[..k][1..] == fs[1..][..k - 1] && fs[..k][0] == fs[0];
      Associative(Encode(fs[0]), EncodeAll(fs[1..][..k - 1]), Encode(fs[k]));
    }
  }

  /** A receiver with a buffer of `capacity` bytes can always read on exactly if every frame, with its
      eight bytes of header, fits the buffer. */
  lemma RoomIffFramesFit(fs: seq<Frame>, capacity: nat)
    requires capacity > 0
    ensures NeverFull(fs, capacity) <==> forall f :: f in fs ==> |Encode(f)| <= capacity
  {
    if forall f :: f in fs ==> |Encode(f)| <= capacity {
      forall raw | raw <= EncodeAll(fs)
        ensures |ParseAll(raw).1| < capacity
      {
        PrefixParses(fs, raw);
        var got := ParseAll(raw).0;
        if got != fs { assert fs[|got|] in fs; }
      }
    } else {
      var k :| 0 <= k < |fs| && |Encode(fs[k])| > capacity;
      var stuck := Encode(fs[k])[..capacity];
      var raw := EncodeAll(fs[..k]) + stuck;
      EncodeAllSplit(fs, k);
      assert raw <= EncodeAll(fs[..k]) + Encode(fs[k]);
      ProperPrefixWaits(fs[k], stuck);
      assert forall f :: f in fs[..k] ==> f in fs;
      ParseBehind(fs[..k], stuck);
    }
  }

  /** A frame as it is sent, byte by byte: id, length, data. */
  lemma ExampleFrame()
    ensures Encode(Message(258, [7, 8])) == [2, 1, 0, 0, 2, 0, 0, 0, 7, 8]
  {
  }
}
