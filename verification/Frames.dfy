/** The on-disk frame of a record: length, checksum, type byte, payload. Decoding trusts only whole
    frames with a matching checksum and stops at the first that is not. The checksum is an
    arbitrary function of the body; the program uses the IEEE CRC-32 of section 8 of RFC 1952. */
module Frames {
  import opened Seqs

  const TWO_32: int := 0x1_0000_0000

  type byte = x: int | 0 <= x < 256
  type uint32 = x: int | 0 <= x < TWO_32

  type Checksum = seq<byte> -> uint32

  /** A decoded record before its payload is interpreted. */
  datatype Raw = Raw(recType: byte, payload: seq<byte>)

  function Body(r: Raw): seq<byte> {
    [r.recType] + r.payload
  }

  /** Its body length is representable in the frame's 32-bit length field. */
  predicate Fits(r: Raw) {
    |r.payload| + 1 < TWO_32
  }

  predicate AllFit(recs: seq<Raw>) {
    forall r :: r in recs ==> Fits(r)
  }

  function BigEndian(n: uint32): (b: seq<byte>)
    ensures |b| == 4
  {
    [n / 256 / 256 / 256, n / 256 / 256 % 256, n / 256 % 256, n % 256]
  }

  function FromBigEndian(b: seq<byte>): (n: int)
    requires |b| == 4
    ensures 0 <= n < TWO_32
  {
    ((b[0] as int * 256 + b[1] as int) * 256 + b[2] as int) * 256 + b[3] as int
  }

  lemma BigEndianRoundTrip(n: uint32)
    ensures FromBigEndian(BigEndian(n)) == n
  {
  }

  lemma BigEndianInjective(b: seq<byte>)
    requires |b| == 4
    ensures BigEndian(FromBigEndian(b)) == b
  {
    var n := FromBigEndian(b);
    var n1 := (b[0] as int * 256 + b[1] as int) * 256 + b[2] as int;
    assert n / 256 == n1 && n % 256 == b[3] as int;
    var n2 := b[0] as int * 256 + b[1] as int;
    assert n1 / 256 == n2 && n1 % 256 == b[2] as int;
    assert n2 / 256 == b[0] as int && n2 % 256 == b[1] as int;
  }

  /** The length field is the body length truncated to 32 bits. */
  function Frame(crc: Checksum, r: Raw): (f: seq<byte>)
    ensures |f| == 9 + |r.payload|
  {
    BigEndian(|Body(r)| % TWO_32) + BigEndian(crc(Body(r))) + Body(r)
  }

  function EncodeAll(crc: Checksum, recs: seq<Raw>): seq<byte> {
    if recs == [] then [] else Frame(crc, recs[0]) + EncodeAll(crc, recs[1..])
  }

  /** What a reader makes of a byte string. `panicked` means that the program indexed the first
      byte of an empty body. */
  datatype Decoded = Decoded(recs: seq<Raw>, panicked: bool)

  function Decode(crc: Checksum, s: seq<byte>): Decoded {
    match ReadFrame(crc, s)
    case Stop => Decoded([], false)
    case EmptyBody => Decoded([], true)
    case Whole(body) => After([Raw(body[0], body[1..])], Decode(crc, s[8 + |body|..]))
  }

  /** The records `recs`, then whatever d holds. */
  function After(recs: seq<Raw>, d: Decoded): Decoded {
    Decoded(recs + d.recs, d.panicked)
  }

  lemma AfterAfter(a: seq<Raw>, b: seq<Raw>, d: Decoded)
    ensures After(a, After(b, d)) == After(a + b, d)
  {
    Assoc(a, b, d.recs);
  }

  /** The first frame of a byte string, if it is whole and its checksum matches. */
  datatype Head = Stop | EmptyBody | Whole(body: seq<byte>)

  function ReadFrame(crc: Checksum, s: seq<byte>): (h: Head)
    ensures h.Whole? ==> 0 < |h.body| && 8 + |h.body| <= |s|
  {
    if |s| < 8 then Stop
    else
      var n: nat := FromBigEndian(s[..4]);
      if |s| < 8 + n || crc(s[8..8 + n]) != FromBigEndian(s[4..8]) then Stop
      else if n == 0 then EmptyBody
      else Whole(s[8..8 + n])
  }

  /** The layout of a frame, byte by byte: the length of type and payload and their checksum, each four
      bytes, most significant first, then the type, then the payload. */
  lemma FrameLayout(crc: Checksum, r: Raw)
    ensures var f, body := Frame(crc, r), [r.recType] + r.payload;
            && |f| == 8 + |body|
            && f[0] as int * 0x100_0000 + f[1] as int * 0x1_0000 + f[2] as int * 0x100 + f[3] as int == |body| % 0x1_0000_0000
            && f[4] as int * 0x100_0000 + f[5] as int * 0x1_0000 + f[6] as int * 0x100 + f[7] as int == crc(body) as int
            && f[8..] == body
  {
    var body := [r.recType] + r.payload;
    BigEndianDigits(|body| % TWO_32);
    BigEndianDigits(crc(body));
    hide BigEndian;
    var f := Frame(crc, r);
    assert f[..4] == BigEndian(|body| % TWO_32) && f[4..8] == BigEndian(crc(body));
    assert f[0] == f[..4][0] && f[1] == f[..4][1] && f[2] == f[..4][2] && f[3] == f[..4][3];
    assert f[4] == f[4..8][0] && f[5] == f[4..8][1] && f[6] == f[4..8][2] && f[7] == f[4..8][3];
  }

  lemma BigEndianDigits(n: uint32)
    ensures var b := BigEndian(n);
            b[0] as int * 0x100_0000 + b[1] as int * 0x1_0000 + b[2] as int * 0x100 + b[3] as int == n
  {
    assert n / 256 / 256 / 256 * 256 + n / 256 / 256 % 256 == n / 256 / 256;
    assert n / 256 / 256 * 256 + n / 256 % 256 == n / 256;
    assert n / 256 * 256 + n % 256 == n;
  }

  // ---- The program's own loops ------------------------------------------------------------

  method PutUint32(a: array<byte>, at: nat, n: uint32)
    requires at + 4 <= a.Length
    modifies a
    ensures a[..] == old(a[..at]) + BigEndian(n) + old(a[at + 4..])
  {
    a[at], a[at + 1], a[at + 2], a[at + 3] := n / 256 / 256 / 256, n / 256 / 256 % 256, n / 256 % 256, n % 256;
  }

  /** Fills the header and the body in place. */
  method EncodeFrame(crc: Checksum, recType: byte, payload: seq<byte>) returns (frame: array<byte>)
    ensures fresh(frame) && frame[..] == Frame(crc, Raw(recType, payload))
  {
    var body := new byte[1 + |payload|](_ => 0);
    body[0] := recType;
    for i := 0 to |payload|
      invariant body[0] == recType
      invariant forall j :: 0 <= j < i ==> body[1 + j] == payload[j]
    {
      body[1 + i] := payload[i];
    }
    assert body[..] == Body(Raw(recType, payload));
    frame := new byte[8 + body.Length](_ => 0);
    PutUint32(frame, 0, body.Length % TWO_32);
    PutUint32(frame, 4, crc(body[..]));
    ghost var header := frame[..8];
    assert header == BigEndian(body.Length % TWO_32) + BigEndian(crc(body[..]));
    for i := 0 to body.Length
      invariant frame[..8] == header
      invariant forall j :: 0 <= j < i ==> frame[8 + j] == body[j]
      invariant body[..] == Body(Raw(recType, payload))
    {
      frame[8 + i] := body[i];
      assert frame[..8] == header;
    }
    assert frame[..] == frame[..8] + frame[8..];
    assert frame[8..] == body[..];
  }

  /** The parts of a frame at `pos`, seen from the rest of the input. */
  lemma SliceHead(input: seq<byte>, pos: nat, n: nat)
    requires pos + 8 <= |input|
    ensures input[pos..][..4] == input[pos..pos + 4] && input[pos..][4..8] == input[pos + 4..pos + 8]
    ensures pos + 8 + n <= |input| ==>
              && input[pos..][8..8 + n] == input[pos + 8..pos + 8 + n]
              && input[pos..][8 + n..] == input[pos + 8 + n..]
  {
  }

  /** ReadFrame in terms of offsets into the whole input. */
  lemma ReadAt(crc: Checksum, input: seq<byte>, pos: nat)
    requires pos + 8 <= |input|
    ensures var n := FromBigEndian(input[pos..pos + 4]);
            ReadFrame(crc, input[pos..]) ==
            if pos + 8 + n > |input| || crc(input[pos + 8..pos + 8 + n]) != FromBigEndian(input[pos + 4..pos + 8]) then Stop
            else if n == 0 then EmptyBody
            else Whole(input[pos + 8..pos + 8 + n])
  {
    SliceHead(input, pos, FromBigEndian(input[pos..pos + 4]));
  }

  lemma DecodeStep(crc: Checksum, input: seq<byte>, pos: nat, n: nat)
    requires pos + 8 + n <= |input| && ReadFrame(crc, input[pos..]) == Whole(input[pos + 8..pos + 8 + n])
    ensures Decode(crc, input[pos..]) ==
            After([Raw(input[pos + 8], input[pos + 9..pos + 8 + n])], Decode(crc, input[pos + 8 + n..]))
  {
    SliceHead(input, pos, n);
    assert input[pos + 8..pos + 8 + n][1..] == input[pos + 9..pos + 8 + n];
  }

  lemma DecodeStops(crc: Checksum, s: seq<byte>)
    ensures !ReadFrame(crc, s).Whole? ==> Decode(crc, s) == Decoded([], ReadFrame(crc, s).EmptyBody?)
    ensures |s| < 8 ==> ReadFrame(crc, s).Stop?
  {
  }

  /** Reads frame after frame; every slice and index it takes is in bounds. */
  method DecodeRecords(crc: Checksum, input: seq<byte>) returns (records: seq<Raw>, panicked: bool)
    ensures Decoded(records, panicked) == Decode(crc, input)
  {
    hide Decode, ReadFrame, FromBigEndian;
    records, panicked := [], false;
    var pos := 0;
    assert input[0..] == input;
    while true
      invariant 0 <= pos <= |input| && !panicked
      invariant Decode(crc, input) == After(records, Decode(crc, input[pos..]))
      decreases |input| - pos
    {
      DecodeStops(crc, input[pos..]);
      if |input| - pos < 4 { break; }
      var bodyLen := FromBigEndian(input[pos..pos + 4]);
      if |input| - (pos + 4) < 4 { break; }
      var wantCrc := FromBigEndian(input[pos + 4..pos + 8]);
      ReadAt(crc, input, pos);
      if |input| - (pos + 8) < bodyLen { break; }
      var body := input[pos + 8..pos + 8 + bodyLen];
      if crc(body) != wantCrc { break; }
      if |body| == 0 {
        panicked := true;
        return;
      }
      DecodeStep(crc, input, pos, bodyLen);
      AfterAfter(records, [Raw(body[0], body[1..])], Decode(crc, input[pos + 8 + bodyLen..]));
      records := records + [Raw(body[0], body[1..])];
      pos := pos + 8 + bodyLen;
    }
  }

  // ---- Round trip and torn tails ----------------------------------------------------------

  /** Reading a header made of two encoded numbers followed by any bytes. */
  lemma ReadHeader(crc: Checksum, n: uint32, sum: uint32, rest: seq<byte>)
    ensures ReadFrame(crc, BigEndian(n) + BigEndian(sum) + rest) ==
            if |rest| < n || crc(rest[..n]) != sum then Stop else if n == 0 then EmptyBody else Whole(rest[..n])
  {
    var s := BigEndian(n) + BigEndian(sum) + rest;
    BigEndianRoundTrip(n);
    BigEndianRoundTrip(sum);
    assert s[..4] == BigEndian(n) && s[4..8] == BigEndian(sum);
    if |rest| >= n {
      assert s[8..8 + n] == rest[..n];
    }
  }

  lemma ReadOne(crc: Checksum, r: Raw, tail: seq<byte>)
    requires Fits(r)
    ensures ReadFrame(crc, Frame(crc, r) + tail) == Whole(Body(r))
  {
    var body := Body(r);
    FrameIs(crc, r);
    hide Frame, BigEndian, Body, ReadFrame;
    Assoc(BigEndian(|body|) + BigEndian(crc(body)), body, tail);
    ReadHeader(crc, |body|, crc(body), body + tail);
    TakeWithin(body, tail, |body|);
    TakeAll(body);
  }

  lemma DecodeOne(crc: Checksum, r: Raw, tail: seq<byte>)
    requires Fits(r)
    ensures Decode(crc, Frame(crc, r) + tail) == After([r], Decode(crc, tail))
  {
    ReadOne(crc, r, tail);
    DropPast(Frame(crc, r), tail);
    BodyIs(r);
  }

  lemma BodyIs(r: Raw)
    ensures |Body(r)| == 1 + |r.payload| && Raw(Body(r)[0], Body(r)[1..]) == r
  {
  }

  /** Whole frames decode to their records whatever follows them. */
  lemma {:induction false} DecodeAppend(crc: Checksum, recs: seq<Raw>, tail: seq<byte>)
    requires AllFit(recs)
    ensures Decode(crc, EncodeAll(crc, recs) + tail) == After(recs, Decode(crc, tail))
  {
    if recs == [] {
      assert EncodeAll(crc, recs) + tail == tail;
    } else {
      DecodeAppend(crc, recs[1..], tail);
      DecodeOne(crc, recs[0], EncodeAll(crc, recs[1..]) + tail);
      Assoc(Frame(crc, recs[0]), EncodeAll(crc, recs[1..]), tail);
      AfterAfter([recs[0]], recs[1..], Decode(crc, tail));
      assert [recs[0]] + recs[1..] == recs;
    }
  }

  lemma FrameIs(crc: Checksum, r: Raw)
    requires Fits(r)
    ensures |Body(r)| == 1 + |r.payload| < TWO_32
    ensures Frame(crc, r) == BigEndian(|Body(r)|) + BigEndian(crc(Body(r))) + Body(r)
  {
    hide BigEndian;
    assert |Body(r)| % TWO_32 == |Body(r)|;
    hide Body;
  }

  /** A frame that was cut short decodes to nothing. */
  lemma TornFrame(crc: Checksum, r: Raw, m: nat)
    requires Fits(r) && m < |Frame(crc, r)|
    ensures Decode(crc, Frame(crc, r)[..m]) == Decoded([], false)
  {
    if m >= 8 {
      var body := Body(r);
      FrameIs(crc, r);
      DecodeStops(crc, Frame(crc, r)[..m]);
      hide Decode, ReadFrame, BigEndian, Body, Frame;
      TakePast(BigEndian(|body|) + BigEndian(crc(body)), body, m);
      ReadHeader(crc, |body|, crc(body), body[..m - 8]);
    }
  }

  /** k is the number of records whose frames lie wholly in the first c bytes. */
  predicate WholeWithin(crc: Checksum, recs: seq<Raw>, c: nat, k: nat) {
    && k <= |recs| && |EncodeAll(crc, recs[..k])| <= c
    && (k < |recs| ==> c < |EncodeAll(crc, recs[..k + 1])|)
  }

  lemma WholeWithinNext(crc: Checksum, recs: seq<Raw>, c: nat, j: nat)
    requires recs != [] && c >= |Frame(crc, recs[0])| && WholeWithin(crc, recs[1..], c - |Frame(crc, recs[0])|, j)
    ensures WholeWithin(crc, recs, c, j + 1)
  {
    EncodePrefix(crc, recs, j);
    if j + 1 < |recs| {
      EncodePrefix(crc, recs, j + 1);
    }
  }

  /** Any byte prefix of a sequence of frames decodes to exactly the records whose frames lie
      wholly inside it. */
  lemma {:induction false} PrefixDecodes(crc: Checksum, recs: seq<Raw>, c: nat) returns (k: nat)
    requires AllFit(recs) && c <= |EncodeAll(crc, recs)|
    ensures WholeWithin(crc, recs, c, k)
    ensures Decode(crc, EncodeAll(crc, recs)[..c]) == Decoded(recs[..k], false)
  {
    if recs == [] {
      k := 0;
    } else if c < |Frame(crc, recs[0])| {
      k := 0;
      NoneWhole(crc, recs, c);
    } else {
      var j := PrefixDecodes(crc, recs[1..], c - |Frame(crc, recs[0])|);
      k := j + 1;
      WholeWithinNext(crc, recs, c, j);
      OneWhole(crc, recs, c, j);
    }
  }

  lemma OneWhole(crc: Checksum, recs: seq<Raw>, c: nat, j: nat)
    requires AllFit(recs) && j < |recs| && |Frame(crc, recs[0])| <= c <= |EncodeAll(crc, recs)|
    requires Decode(crc, EncodeAll(crc, recs[1..])[..c - |Frame(crc, recs[0])|]) == Decoded(recs[1..][..j], false)
    ensures Decode(crc, EncodeAll(crc, recs)[..c]) == Decoded(recs[..j + 1], false)
  {
    hide Decode, Frame, Fits;
    var f, rest := Frame(crc, recs[0]), EncodeAll(crc, recs[1..]);
    assert EncodeAll(crc, recs) == f + rest;
    assert Fits(recs[0]);
    hide AllFit, EncodeAll;
    TakePast(f, rest, c);
    DecodeOne(crc, recs[0], rest[..c - |f|]);
    TakeCons(recs, j);
  }

  lemma NoneWhole(crc: Checksum, recs: seq<Raw>, c: nat)
    requires AllFit(recs) && recs != [] && c < |Frame(crc, recs[0])|
    ensures WholeWithin(crc, recs, c, 0)
    ensures Decode(crc, EncodeAll(crc, recs)[..c]) == Decoded([], false)
  {
    TornFrame(crc, recs[0], c);
    EncodePrefix(crc, recs, 0);
    hide Decode, Frame;
    TakeWithin(Frame(crc, recs[0]), EncodeAll(crc, recs[1..]), c);
  }

  lemma EncodePrefix(crc: Checksum, recs: seq<Raw>, j: nat)
    requires j < |recs|
    ensures |EncodeAll(crc, recs[..j + 1])| == |Frame(crc, recs[0])| + |EncodeAll(crc, recs[1..][..j])|
  {
    assert recs[..j + 1][1..] == recs[1..][..j];
  }

  lemma RoundTrip(crc: Checksum, recs: seq<Raw>)
    requires AllFit(recs)
    ensures Decode(crc, EncodeAll(crc, recs)) == Decoded(recs, false)
  {
    DecodeAppend(crc, recs, []);
    assert EncodeAll(crc, recs) + [] == EncodeAll(crc, recs);
    assert recs + [] == recs;
  }

  /** What a whole first frame says about the bytes it was read from. */
  lemma ReadSound(crc: Checksum, s: seq<byte>)
    requires ReadFrame(crc, s).Whole?
    ensures var body := ReadFrame(crc, s).body;
            var r := Raw(body[0], body[1..]);
            Fits(r) && s == Frame(crc, r) + s[8 + |body|..]
  {
    var body := ReadFrame(crc, s).body;
    var r := Raw(body[0], body[1..]);
    assert Body(r) == body;
    BigEndianInjective(s[..4]);
    BigEndianInjective(s[4..8]);
    assert s == (s[..4] + s[4..8] + body) + s[8 + |body|..];
  }

  /** A first frame with an empty body is a zero length and the checksum of nothing. */
  lemma ReadEmpty(crc: Checksum, s: seq<byte>)
    ensures ReadFrame(crc, s).EmptyBody? <==> BigEndian(0) + BigEndian(crc([])) <= s
  {
    var h := BigEndian(0) + BigEndian(crc([]));
    if h <= s {
      ReadHeader(crc, 0, crc([]), s[8..]);
      assert s == h + s[8..];
      assert s[8..][..0] == [];
    }
    if ReadFrame(crc, s).EmptyBody? {
      BigEndianInjective(s[..4]);
      BigEndianInjective(s[4..8]);
      assert s[8..8] == [];
      assert s[..8] == s[..4] + s[4..8];
    }
  }

  /** Decoding invents nothing: the records it returns, encoded again, are a prefix of the bytes,
      and what stopped it is at the head of what follows. */
  lemma {:induction false} DecodeSound(crc: Checksum, s: seq<byte>) returns (tail: seq<byte>)
    ensures AllFit(Decode(crc, s).recs)
    ensures s == EncodeAll(crc, Decode(crc, s).recs) + tail
    ensures !ReadFrame(crc, tail).Whole?
    ensures Decode(crc, s).panicked <==> ReadFrame(crc, tail).EmptyBody?
    decreases |s|
  {
    tail := s;
    var h := ReadFrame(crc, s);
    if h.Whole? {
      var next := s[8 + |h.body|..];
      tail := DecodeSound(crc, next);
      ReadSound(crc, s);
      var r := Raw(h.body[0], h.body[1..]);
      var recs := Decode(crc, s).recs;
      assert recs[0] == r && recs[1..] == Decode(crc, next).recs;
      Assoc(Frame(crc, r), EncodeAll(crc, recs[1..]), tail);
    }
  }

  /** Decoding panics exactly when some whole frames are followed by a zero length and the checksum
      of the empty string; with CRC-32 that is eight zero bytes. */
  lemma PanicsExactly(crc: Checksum, s: seq<byte>)
    ensures Decode(crc, s).panicked <==>
            exists recs, tail :: AllFit(recs) && s == EncodeAll(crc, recs) + tail && BigEndian(0) + BigEndian(crc([])) <= tail
  {
    if Decode(crc, s).panicked {
      var tail := DecodeSound(crc, s);
      ReadEmpty(crc, tail);
    }
    if recs, tail :| AllFit(recs) && s == EncodeAll(crc, recs) + tail && BigEndian(0) + BigEndian(crc([])) <= tail {
      ReadEmpty(crc, tail);
      DecodeAppend(crc, recs, tail);
    }
  }

  lemma {:induction false} EncodeConcat(crc: Checksum, a: seq<Raw>, b: seq<Raw>)
    ensures EncodeAll(crc, a + b) == EncodeAll(crc, a) + EncodeAll(crc, b)
  {
    if a == [] {
      assert a + b == b;
    } else {
      assert (a + b)[1..] == a[1..] + b;
      EncodeConcat(crc, a[1..], b);
      Assoc(Frame(crc, a[0]), EncodeAll(crc, a[1..]), EncodeAll(crc, b));
    }
  }

  /** Decoding starts with given records exactly when the bytes start with their frames. */
  lemma DecodeStartsWith(crc: Checksum, recs: seq<Raw>, s: seq<byte>)
    requires AllFit(recs)
    ensures recs <= Decode(crc, s).recs <==> EncodeAll(crc, recs) <= s
  {
    hide Decode, EncodeAll, AllFit, ReadFrame;
    var e := EncodeAll(crc, recs);
    var all := Decode(crc, s).recs;
    if e <= s {
      PrefixSplit(e, s);
      DecodeAppend(crc, recs, s[|e|..]);
      PrefixJoin(recs, Decode(crc, s[|e|..]).recs);
    }
    if recs <= all {
      RecordsArePrefix(crc, recs, s);
    }
  }

  lemma RecordsArePrefix(crc: Checksum, recs: seq<Raw>, s: seq<byte>)
    requires recs <= Decode(crc, s).recs
    ensures EncodeAll(crc, recs) <= s
  {
    hide Decode, EncodeAll, AllFit, ReadFrame;
    var all := Decode(crc, s).recs;
    var tail := DecodeSound(crc, s);
    PrefixSplit(recs, all);
    var rest := all[|recs|..];
    EncodeConcat(crc, recs, rest);
    Assoc(EncodeAll(crc, recs), EncodeAll(crc, rest), tail);
    PrefixJoin(EncodeAll(crc, recs), EncodeAll(crc, rest) + tail);
  }

  /** Frames cannot be decoded from bytes that start with a frameless t unless the first of them ends
      behind t. */
  lemma FirstEndsBehind(crc: Checksum, t: seq<byte>, x: seq<byte>, r: Raw)
    requires Decode(crc, t).recs == [] && [r] <= Decode(crc, t + x).recs
    ensures |t| < |Frame(crc, r)|
  {
    hide Decode, EncodeAll, Frame, ReadFrame, Fits;
    FirstFits(crc, r, t + x);
    FirstIsPrefix(crc, r, t + x);
    var f := Frame(crc, r);
    if |f| <= |t| {
      TakeWithin(t, x, |f|);
      assert f == t[..|f|];
      StartsWithFrame(crc, r, t);
    }
  }

  lemma FirstIsPrefix(crc: Checksum, r: Raw, s: seq<byte>)
    requires [r] <= Decode(crc, s).recs
    ensures Frame(crc, r) <= s
  {
    hide Decode, Frame;
    RecordsArePrefix(crc, [r], s);
    OneFrame(crc, r);
  }

  lemma StartsWithFrame(crc: Checksum, r: Raw, t: seq<byte>)
    requires Fits(r) && Frame(crc, r) <= t
    ensures Decode(crc, t).recs != []
  {
    hide Decode, Frame, Fits;
    PrefixSplit(Frame(crc, r), t);
    DecodeOne(crc, r, t[|Frame(crc, r)|..]);
  }

  lemma FirstFits(crc: Checksum, r: Raw, s: seq<byte>)
    requires [r] <= Decode(crc, s).recs
    ensures Fits(r)
  {
    hide Decode, Fits;
    var tail := DecodeSound(crc, s);
    assert Decode(crc, s).recs[0] == r;
  }

  lemma OneFrame(crc: Checksum, r: Raw)
    ensures EncodeAll(crc, [r]) == Frame(crc, r)
  {
    hide Frame;
    assert [r][1..] == [];
  }

  /** The records `later` are found behind the records `whole`, whatever is decoded in between. */
  ghost predicate FoundAfter(recs: seq<Raw>, whole: seq<Raw>, later: seq<Raw>) {
    exists mid :: FoundBehind(recs, whole, mid, later)
  }

  ghost predicate FoundBehind(recs: seq<Raw>, whole: seq<Raw>, mid: seq<Raw>, later: seq<Raw>) {
    whole + mid + later <= recs
  }

  /** Records appended behind leftover bytes t of any length in which there is no whole frame are found
      by the next reader exactly when the frames are a prefix of t followed by themselves: always if t
      is empty, otherwise only if they repeat with the period of t. */
  lemma TornTailFindsLater(crc: Checksum, whole: seq<Raw>, t: seq<byte>, later: seq<Raw>)
    requires AllFit(whole) && AllFit(later) && Decode(crc, t).recs == []
    ensures FoundAfter(Decode(crc, EncodeAll(crc, whole) + (t + EncodeAll(crc, later))).recs, whole, later) <==>
            EncodeAll(crc, later) <= t + EncodeAll(crc, later)
  {
    hide Decode, EncodeAll, AllFit, ReadFrame;
    var s := t + EncodeAll(crc, later);
    var all := Decode(crc, s).recs;
    DecodeAppend(crc, whole, s);
    DecodeStartsWith(crc, later, s);
    if later <= all {
      PrefixCancel(whole, later, all);
      assert whole + [] == whole;
      assert FoundBehind(whole + all, whole, [], later);
    }
    if mid :| FoundBehind(whole + all, whole, mid, later) {
      Assoc(whole, mid, later);
      PrefixCancel(whole, mid + later, all);
      if mid == [] {
        assert [] + later == later;
      } else {
        NothingBetween(crc, t, mid, later);
      }
    }
  }

  /** A frame decoded from t and some of the appended bytes leaves too few of them for the records. */
  lemma NothingBetween(crc: Checksum, t: seq<byte>, mid: seq<Raw>, later: seq<Raw>)
    requires Decode(crc, t).recs == [] && mid != []
    ensures !(mid + later <= Decode(crc, t + EncodeAll(crc, later)).recs)
  {
    var s := t + EncodeAll(crc, later);
    assert EncodeAll(crc, mid) == Frame(crc, mid[0]) + EncodeAll(crc, mid[1..]);
    hide Decode, EncodeAll, Frame, ReadFrame;
    if mid + later <= Decode(crc, s).recs {
      assert [mid[0]] <= mid + later;
      FirstEndsBehind(crc, t, EncodeAll(crc, later), mid[0]);
      RecordsArePrefix(crc, mid + later, s);
      EncodeConcat(crc, mid, later);
    }
  }

  /** Bytes written after a torn frame fill up the body its header declared. Nothing past the torn
      frame is decoded exactly when they do not fill it or the mixture fails the checksum. */
  lemma TornTailHides(crc: Checksum, recs: seq<Raw>, r: Raw, m: nat, later: seq<byte>)
    requires AllFit(recs) && Fits(r) && 8 <= m < |Frame(crc, r)|
    ensures Decode(crc, EncodeAll(crc, recs) + (Frame(crc, r)[..m] + later)).recs == recs <==>
            var mix := Body(r)[..m - 8] + later;
            |mix| < |Body(r)| || crc(mix[..|Body(r)|]) != crc(Body(r))
  {
    var s := Frame(crc, r)[..m] + later;
    ReadTorn(crc, r, m, later);
    DecodeAppend(crc, recs, s);
    NothingDecoded(crc, s);
  }

  /** In particular nothing is decoded from a torn frame, header length complete, that what follows
      does not fill. */
  lemma UnfilledTornTail(crc: Checksum, recs: seq<Raw>, r: Raw, m: nat, later: seq<byte>)
    requires AllFit(recs) && Fits(r) && 4 <= m < |Frame(crc, r)| && m + |later| < |Frame(crc, r)|
    ensures Decode(crc, EncodeAll(crc, recs) + (Frame(crc, r)[..m] + later)) == Decoded(recs, false)
  {
    var s := Frame(crc, r)[..m] + later;
    FrameLength(crc, r, m, later);
    DecodeStops(crc, s);
    DecodeAppend(crc, recs, s);
    assert recs + [] == recs;
    hide Frame, Body, BigEndian, FromBigEndian, Decode, EncodeAll;
  }

  /** Its length field is legible once four bytes of a frame are there. */
  lemma FrameLength(crc: Checksum, r: Raw, m: nat, later: seq<byte>)
    requires Fits(r) && 4 <= m <= |Frame(crc, r)|
    ensures FromBigEndian((Frame(crc, r)[..m] + later)[..4]) == |Body(r)|
  {
    var n: uint32 := |Body(r)|;
    var sum: uint32 := crc(Body(r));
    BigEndianRoundTrip(n);
    Assoc(BigEndian(n), BigEndian(sum), Body(r));
    hide Body, BigEndian, FromBigEndian;
    TakeWithin(Frame(crc, r)[..m], later, 4);
    TakeTake(Frame(crc, r), 4, m);
    TakeWithin(BigEndian(n), BigEndian(sum) + Body(r), 4);
    TakeAll(BigEndian(n));
  }

  lemma TornShape(crc: Checksum, r: Raw, m: nat, later: seq<byte>)
    requires Fits(r) && 8 <= m < |Frame(crc, r)|
    ensures Frame(crc, r)[..m] + later ==
            BigEndian(|Body(r)|) + BigEndian(crc(Body(r))) + (Body(r)[..m - 8] + later)
  {
    var header := BigEndian(|Body(r)|) + BigEndian(crc(Body(r)));
    FrameIs(crc, r);
    hide Frame, Body, BigEndian;
    TakePast(header, Body(r), m);
    Assoc(header, Body(r)[..m - 8], later);
  }

  lemma ReadTorn(crc: Checksum, r: Raw, m: nat, later: seq<byte>)
    requires Fits(r) && 8 <= m < |Frame(crc, r)|
    ensures ReadFrame(crc, Frame(crc, r)[..m] + later).Whole? <==>
            var mix := Body(r)[..m - 8] + later;
            |mix| >= |Body(r)| && crc(mix[..|Body(r)|]) == crc(Body(r))
  {
    TornShape(crc, r, m, later);
    ReadHeader(crc, |Body(r)|, crc(Body(r)), Body(r)[..m - 8] + later);
  }

  lemma NothingDecoded(crc: Checksum, s: seq<byte>)
    ensures Decode(crc, s).recs == [] <==> !ReadFrame(crc, s).Whole?
  {
  }
}
