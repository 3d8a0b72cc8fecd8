/**
 * The subset of CBOR (RFC 8949) that the schema-driven decoder reads: item heads and their
 * arguments (section 3.1), definite and indefinite-length byte and text strings with the 0xff
 * break (section 3.2.3), null (simple value 22, section 3.3), tags and the epoch-based date/time
 * tag 1 (section 3.4.2), and the floating-point heads that carry a timestamp's payload.
 *
 * Every read is a pure function of the input and the cursor position; it returns what was read
 * together with the position the cursor is left at, also when the read fails.
 */
module CborWire {
  import opened Wrappers
  import opened Octets

  const MAJOR_BYTES: nat := 2
  const MAJOR_TEXT: nat := 3
  const MAJOR_TAG: nat := 6
  const INFO_INDEFINITE: nat := 31
  const BREAK: Byte := 0xff
  const NULL: Byte := 0xf6
  /** Tag number of an epoch-based date/time (section 3.4.2 of RFC 8949). */
  const TAG_EPOCH_DATETIME: nat := 1
  /** Arguments are at most 64 bits wide. */
  const ARGUMENT_LIMIT: nat := 0x1_0000_0000_0000_0000

  /** The data type an initial byte announces. */
  datatype Type =
    | Bool | Null | Undefined
    | U8 | U16 | U32 | U64
    | I8 | I16 | I32 | I64
    | F16 | F32 | F64
    | Simple
    | Bytes | BytesIndef
    | String | StringIndef
    | Array | ArrayIndef
    | Map | MapIndef
    | Tag
    | Break

  datatype ErrorKind = EndOfInput | TypeMismatch(found: Type) | UnknownType(initial: Byte) | Message

  /** A decoding error: its kind, a message, and optionally the position it refers to. */
  datatype Error = Error(kind: ErrorKind, message: string, at: Option<nat>) {
    predicate IsTypeMismatch() { kind.TypeMismatch? }
  }

  /** The outcome of one read, and the position the cursor is left at. */
  datatype Read<+T, +E> = Read(result: Result<T, E>, next: nat)

  /** The state of a chunk iterator: the length of a definite string not read yet, or indefinite. */
  datatype IterLen = Definite(remaining: nat) | Indefinite

  /** One step of a chunk iterator: no further chunk (None), or a chunk or an error. */
  datatype Next = Next(item: Option<Result<seq<Byte>, Error>>, next: nat, len: IterLen)

  /** A floating-point item, kept as its width in octets and its big-endian IEEE 754 bits. */
  datatype Float = Float(width: nat, bits: seq<Byte>)

  function Major(b: Byte): (m: nat)
    ensures m < 8
  {
    b / 32
  }

  function Info(b: Byte): (i: nat)
    ensures i < 32
  {
    b % 32
  }

  function InitialByte(major: nat, info: nat): (b: Byte)
    requires major < 8 && info < 32
    ensures Major(b) == major && Info(b) == info
  {
    major * 32 + info
  }

  /** The data type an initial byte announces; None for the reserved additional-information values. */
  function TypeOf(b: Byte): (t: Option<Type>)
    ensures t.Some? <==> (Info(b) < 28 || (Info(b) == INFO_INDEFINITE && Major(b) in {2, 3, 4, 5, 7}))
    ensures b == NULL <==> t == Some(Null)
    ensures t == Some(StringIndef) <==> b == InitialByte(MAJOR_TEXT, INFO_INDEFINITE)
  {
    var m, i := Major(b), Info(b);
    if m == 0 then
      if i <= 24 then Some(U8) else if i == 25 then Some(U16) else if i == 26 then Some(U32)
      else if i == 27 then Some(U64) else None
    else if m == 1 then
      if i <= 24 then Some(I8) else if i == 25 then Some(I16) else if i == 26 then Some(I32)
      else if i == 27 then Some(I64) else None
    else if m == 2 then
      if i < 28 then Some(Bytes) else if i == 31 then Some(BytesIndef) else None
    else if m == 3 then
      if i < 28 then Some(String) else if i == 31 then Some(StringIndef) else None
    else if m == 4 then
      if i < 28 then Some(Array) else if i == 31 then Some(ArrayIndef) else None
    else if m == 5 then
      if i < 28 then Some(Map) else if i == 31 then Some(MapIndef) else None
    else if m == 6 then
      if i < 28 then Some(Tag) else None
    else
      if i < 20 then Some(Simple) else if i < 22 then Some(Bool) else if i == 22 then Some(Null)
      else if i == 23 then Some(Undefined) else if i == 24 then Some(Simple)
      else if i == 25 then Some(F16) else if i == 26 then Some(F32) else if i == 27 then Some(F64)
      else if i == 31 then Some(Break) else None
  }

  function EndOfInputError(): Error {
    Error(EndOfInput, "", None)
  }

  /** The error for an item of the wrong type whose initial byte b is at position p. */
  function Mismatch(b: Byte, p: nat): (e: Error)
    ensures e.IsTypeMismatch() <==> TypeOf(b).Some?
    ensures e.at == Some(p)
  {
    match TypeOf(b)
    case Some(t) => Error(TypeMismatch(t), "", Some(p))
    case None => Error(UnknownType(b), "", Some(p))
  }

  /** The type of the item at position p, without moving the cursor. */
  function PeekType(s: seq<Byte>, p: nat): (r: Result<Type, Error>)
    requires p <= |s|
    ensures r.Ok? <==> p < |s| && TypeOf(s[p]).Some?
    ensures r.Ok? ==> TypeOf(s[p]) == Some(r.value)
    ensures p == |s| ==> r == Err(EndOfInputError())
  {
    if p == |s| then Err(EndOfInputError())
    else match TypeOf(s[p])
      case Some(t) => Ok(t)
      case None => Err(Error(UnknownType(s[p]), "", Some(p)))
  }

  function Pow256(w: nat): (n: nat)
    ensures n >= 1
  {
    if w == 0 then 1 else 256 * Pow256(w - 1)
  }

  /** The unsigned integer whose big-endian octets are bs. */
  function BigEndian(bs: seq<Byte>): nat {
    if bs == [] then 0 else BigEndian(bs[..|bs| - 1]) * 256 + bs[|bs| - 1]
  }

  /** The width in octets of an argument announced by additional information 24 to 27. */
  function ArgumentWidth(info: nat): (w: nat)
    requires 24 <= info <= 27
    ensures w in {1, 2, 4, 8}
  {
    if info == 24 then 1 else if info == 25 then 2 else if info == 26 then 4 else 8
  }

  /**
   * The argument of a head whose initial byte b has just been read, the cursor standing at p on
   * the octet after it: the additional information itself below 24, else the 1, 2, 4 or 8 octets
   * that follow; the values 28 to 31 carry no argument.
   */
  function Argument(s: seq<Byte>, p: nat, b: Byte): (r: Read<nat, Error>)
    requires p <= |s|
    ensures p <= r.next <= |s|
    ensures r.result.Ok? ==> r.result.value < ARGUMENT_LIMIT
  {
    var info := Info(b);
    if info < 24 then Read(Ok(info), p)
    else if info <= 27 then
      var w := ArgumentWidth(info);
      if p + w <= |s| then
        BigEndianBound(s[p..p + w]);
        Read(Ok(BigEndian(s[p..p + w])), p + w)
      else Read(Err(EndOfInputError()), p)
    else Read(Err(Error(UnknownType(b), "", None)), p)
  }

  /**
   * A definite-length string of the given major type (2 for bytes, 3 for text): its head, then
   * exactly as many octets as the head's argument says. Any other item, including an
   * indefinite-length string, is a type mismatch reported after the initial byte was consumed.
   */
  function DefiniteString(s: seq<Byte>, p: nat, major: nat): (r: Read<seq<Byte>, Error>)
    requires p <= |s| && major < 8
    ensures p <= r.next <= |s|
    ensures r.result.Ok? ==> p < r.next
  {
    if p == |s| then Read(Err(EndOfInputError()), p)
    else
      var b := s[p];
      if Major(b) != major || Info(b) == INFO_INDEFINITE then Read(Err(Mismatch(b, p)), p + 1)
      else
        var a := Argument(s, p + 1, b);
        if a.result.Err? then Read(Err(a.result.error), a.next)
        else if a.next + a.result.value <= |s| then
          Read(Ok(s[a.next..a.next + a.result.value]), a.next + a.result.value)
        else Read(Err(EndOfInputError()), a.next)
  }

  /**
   * Opens a chunk iterator over the string item of the given major type at p: after the head of a
   * definite string the iterator knows its length, after the initial byte of an indefinite string
   * it reads chunks until the break.
   */
  function IterStart(s: seq<Byte>, p: nat, major: nat): (r: Read<IterLen, Error>)
    requires p <= |s| && major < 8
    ensures p <= r.next <= |s|
  {
    if p == |s| then Read(Err(EndOfInputError()), p)
    else
      var b := s[p];
      if Major(b) != major then Read(Err(Mismatch(b, p)), p + 1)
      else if Info(b) == INFO_INDEFINITE then Read(Ok(Indefinite), p + 1)
      else
        var a := Argument(s, p + 1, b);
        if a.result.Err? then Read(Err(a.result.error), a.next)
        else Read(Ok(Definite(a.result.value)), a.next)
  }

  /**
   * The next chunk of a chunk iterator. A definite string yields its octets once, and nothing at
   * all when it is empty; an indefinite string yields one definite chunk of the same major type
   * per step and ends by consuming the break.
   */
  function IterNext(s: seq<Byte>, p: nat, major: nat, len: IterLen): (r: Next)
    requires p <= |s| && major < 8
    ensures p <= r.next <= |s|
    ensures r.item.Some? && r.item.value.Ok? ==> p < r.next
  {
    match len
    case Indefinite =>
      if p == |s| then Next(Some(Err(EndOfInputError())), p, Indefinite)
      else if s[p] == BREAK then Next(None, p + 1, Indefinite)
      else
        var c := DefiniteString(s, p, major);
        Next(Some(c.result), c.next, Indefinite)
    case Definite(n) =>
      if n == 0 then Next(None, p, Definite(0))
      else if p + n <= |s| then Next(Some(Ok(s[p..p + n])), p + n, Definite(0))
      else Next(Some(Err(EndOfInputError())), p, Definite(0))
  }

  /** Drains a chunk iterator: every chunk in order, or the first error. */
  function Collect(s: seq<Byte>, p: nat, major: nat, len: IterLen): (r: Read<seq<seq<Byte>>, Error>)
    requires p <= |s| && major < 8
    ensures p <= r.next <= |s|
    decreases |s| - p
  {
    var n := IterNext(s, p, major, len);
    match n.item
    case None => Read(Ok([]), n.next)
    case Some(Err(e)) => Read(Err(e), n.next)
    case Some(Ok(c)) =>
      var rest := Collect(s, n.next, major, n.len);
      match rest.result
      case Ok(cs) => Read(Ok([c] + cs), rest.next)
      case Err(e) => Read(Err(e), rest.next)
  }

  /** The chunks of the string item of the given major type at p. */
  function Chunks(s: seq<Byte>, p: nat, major: nat): (r: Read<seq<seq<Byte>>, Error>)
    requires p <= |s| && major < 8
    ensures p <= r.next <= |s|
  {
    var st := IterStart(s, p, major);
    match st.result
    case Err(e) => Read(Err(e), st.next)
    case Ok(len) => Collect(s, st.next, major, len)
  }

  /** All chunks joined in order. */
  function Flatten(chunks: seq<seq<Byte>>): seq<Byte> {
    if chunks == [] then [] else chunks[0] + Flatten(chunks[1..])
  }

  /** The tag number of the tag head at p. */
  function ReadTag(s: seq<Byte>, p: nat): (r: Read<nat, Error>)
    requires p <= |s|
    ensures p <= r.next <= |s|
  {
    if p == |s| then Read(Err(EndOfInputError()), p)
    else
      var b := s[p];
      if Major(b) != MAJOR_TAG then Read(Err(Mismatch(b, p)), p + 1)
      else Argument(s, p + 1, b)
  }

  /** The null item at p. */
  function ReadNull(s: seq<Byte>, p: nat): (r: Read<(), Error>)
    requires p <= |s|
    ensures p <= r.next <= |s|
    ensures r.result.Ok? <==> p < |s| && s[p] == NULL
    ensures r.result.Ok? ==> r.next == p + 1
  {
    if p == |s| then Read(Err(EndOfInputError()), p)
    else if s[p] == NULL then Read(Ok(()), p + 1)
    else Read(Err(Mismatch(s[p], p)), p + 1)
  }

  /** The half-, single- or double-precision item at p, as its raw bits. */
  function ReadFloat(s: seq<Byte>, p: nat): (r: Read<Float, Error>)
    requires p <= |s|
    ensures p <= r.next <= |s|
    ensures r.result.Ok? ==> r.result.value.width in {2, 4, 8} && |r.result.value.bits| == r.result.value.width
  {
    if p == |s| then Read(Err(EndOfInputError()), p)
    else
      var b := s[p];
      if b != 0xf9 && b != 0xfa && b != 0xfb then Read(Err(Mismatch(b, p)), p + 1)
      else
        var w := if b == 0xf9 then 2 else if b == 0xfa then 4 else 8;
        if p + 1 + w <= |s| then Read(Ok(Float(w, s[p + 1..p + 1 + w])), p + 1 + w)
        else Read(Err(EndOfInputError()), p + 1)
  }

  // ---------------------------------------------------------------------------------------------
  // Encoding, the partner of the reads above

  /** The w big-endian octets of n. */
  function ToBigEndian(n: nat, w: nat): (bs: seq<Byte>)
    ensures |bs| == w
  {
    if w == 0 then [] else ToBigEndian(n / 256, w - 1) + [n % 256]
  }

  /** The shortest head of the given major type whose argument is n (the preferred serialization). */
  function EncodeHead(major: nat, n: nat): (h: seq<Byte>)
    requires major < 8 && n < ARGUMENT_LIMIT
    ensures 1 <= |h| <= 9
    ensures Major(h[0]) == major && Info(h[0]) < 28
  {
    if n < 24 then [InitialByte(major, n)]
    else if n < 0x100 then [InitialByte(major, 24)] + ToBigEndian(n, 1)
    else if n < 0x1_0000 then [InitialByte(major, 25)] + ToBigEndian(n, 2)
    else if n < 0x1_0000_0000 then [InitialByte(major, 26)] + ToBigEndian(n, 4)
    else [InitialByte(major, 27)] + ToBigEndian(n, 8)
  }

  /** A definite-length string: its head, then its octets. */
  function EncodeDefinite(major: nat, payload: seq<Byte>): seq<Byte>
    requires major < 8 && |payload| < ARGUMENT_LIMIT
  {
    EncodeHead(major, |payload|) + payload
  }

  ghost predicate ChunksFit(chunks: seq<seq<Byte>>) {
    forall i :: 0 <= i < |chunks| ==> |chunks[i]| < ARGUMENT_LIMIT
  }

  function EncodeChunks(major: nat, chunks: seq<seq<Byte>>): seq<Byte>
    requires major < 8 && ChunksFit(chunks)
  {
    if chunks == [] then [] else EncodeDefinite(major, chunks[0]) + EncodeChunks(major, chunks[1..])
  }

  /** An indefinite-length string: the initial byte with information 31, its chunks, the break. */
  function EncodeIndefinite(major: nat, chunks: seq<seq<Byte>>): seq<Byte>
    requires major < 8 && ChunksFit(chunks)
  {
    [InitialByte(major, INFO_INDEFINITE)] + EncodeChunks(major, chunks) + [BREAK]
  }

  // ---------------------------------------------------------------------------------------------
  // Lemmas

  lemma {:induction false} BigEndianBound(bs: seq<Byte>)
    ensures BigEndian(bs) < Pow256(|bs|)
  {
    if bs != [] {
      var init := bs[..|bs| - 1];
      BigEndianBound(init);
      assert BigEndian(init) + 1 <= Pow256(|init|);
      assert (BigEndian(init) + 1) * 256 <= Pow256(|init|) * 256;
    }
  }

  lemma Pow256Values()
    ensures Pow256(1) == 0x100 && Pow256(2) == 0x1_0000 && Pow256(4) == 0x1_0000_0000
    ensures Pow256(8) == ARGUMENT_LIMIT
  {
  }

  /** Big-endian decoding undoes big-endian encoding for every value that fits in w octets. */
  lemma {:induction false} BigEndianRoundTrip(n: nat, w: nat)
    requires n < Pow256(w)
    ensures BigEndian(ToBigEndian(n, w)) == n
  {
    if w > 0 {
      var bs := ToBigEndian(n, w);
      assert bs[..|bs| - 1] == ToBigEndian(n / 256, w - 1);
      assert n / 256 < Pow256(w - 1);
      BigEndianRoundTrip(n / 256, w - 1);
      assert bs[|bs| - 1] == n % 256;
      assert BigEndian(bs) == BigEndian(bs[..|bs| - 1]) * 256 + bs[|bs| - 1];
    }
  }

  /** The octets e are found in s starting at position p. */
  ghost predicate EncodedAt(s: seq<Byte>, p: nat, e: seq<Byte>) {
    p + |e| <= |s| && s[p..p + |e|] == e
  }

  lemma EncodedAtSplit(s: seq<Byte>, p: nat, a: seq<Byte>, b: seq<Byte>)
    requires EncodedAt(s, p, a + b)
    ensures EncodedAt(s, p, a) && EncodedAt(s, p + |a|, b)
  {
    assert s[p..p + |a|] == (a + b)[..|a|];
    assert s[p + |a|..p + |a| + |b|] == (a + b)[|a|..];
  }

  /** The layout of an encoded head: the initial byte, then the argument in the width it announces. */
  lemma EncodeHeadLayout(major: nat, n: nat)
    requires major < 8 && n < ARGUMENT_LIMIT
    ensures var h := EncodeHead(major, n);
      if n < 24 then |h| == 1 && Info(h[0]) == n
      else (24 <= Info(h[0]) <= 27 && |h| == 1 + ArgumentWidth(Info(h[0]))
            && n < Pow256(|h| - 1) && h[1..] == ToBigEndian(n, |h| - 1))
  {
    Pow256Values();
    var h := EncodeHead(major, n);
    if n < 24 {
    } else if n < 0x100 {
      assert h[1..] == ToBigEndian(n, 1);
    } else if n < 0x1_0000 {
      assert h[1..] == ToBigEndian(n, 2);
    } else if n < 0x1_0000_0000 {
      assert h[1..] == ToBigEndian(n, 4);
    } else {
      assert h[1..] == ToBigEndian(n, 8);
    }
  }

  /** The argument read back from an encoded head is the encoded value, and it ends the head. */
  lemma ArgumentRoundTrip(s: seq<Byte>, p: nat, major: nat, n: nat)
    requires major < 8 && n < ARGUMENT_LIMIT
    requires EncodedAt(s, p, EncodeHead(major, n))
    ensures s[p] == EncodeHead(major, n)[0]
    ensures Argument(s, p + 1, s[p]) == Read(Ok(n), p + |EncodeHead(major, n)|)
  {
    var h := EncodeHead(major, n);
    assert s[p] == s[p..p + |h|][0];
    EncodeHeadLayout(major, n);
    if n >= 24 {
      var w := |h| - 1;
      EncodedAtSplit(s, p, h[..1], h[1..]);
      assert h[..1] + h[1..] == h;
      assert s[p + 1..p + 1 + w] == ToBigEndian(n, w);
      BigEndianRoundTrip(n, w);
    }
  }

  /** A definite string is read back as exactly its payload, and the cursor ends right after it. */
  lemma DefiniteStringRoundTrip(s: seq<Byte>, p: nat, major: nat, payload: seq<Byte>)
    requires major < 8 && |payload| < ARGUMENT_LIMIT
    requires EncodedAt(s, p, EncodeDefinite(major, payload))
    ensures DefiniteString(s, p, major) == Read(Ok(payload), p + |EncodeDefinite(major, payload)|)
  {
    var h := EncodeHead(major, |payload|);
    assert EncodeDefinite(major, payload) == h + payload;
    EncodedAtSplit(s, p, h, payload);
    ArgumentRoundTrip(s, p, major, |payload|);
    var q := p + |h|;
    assert s[q..q + |payload|] == payload;
    DefiniteStringOfHead(s, p, major, |payload|, q);
  }

  /** A definite read after a head of the right major type whose argument n ends at q: the n octets from q. */
  lemma DefiniteStringOfHead(s: seq<Byte>, p: nat, major: nat, n: nat, q: nat)
    requires major < 8 && p < |s| && q + n <= |s|
    requires Major(s[p]) == major && Info(s[p]) < 28
    requires Argument(s, p + 1, s[p]) == Read(Ok(n), q)
    ensures DefiniteString(s, p, major) == Read(Ok(s[q..q + n]), q + n)
  {
  }

  /** A definite string read returns the octets just before the cursor, after a head of one octet or more. */
  lemma DefiniteStringIsSlice(s: seq<Byte>, p: nat, major: nat)
    requires p <= |s| && major < 8
    ensures var r := DefiniteString(s, p, major);
      r.result.Ok? ==> p < r.next - |r.result.value| && r.result.value == s[r.next - |r.result.value|..r.next]
  {
  }

  /** An indefinite-length string never reads as a definite one: the read is a type mismatch. */
  lemma DefiniteStringRejectsIndefinite(s: seq<Byte>, p: nat, major: nat)
    requires major in {2, 3} && p < |s| && s[p] == InitialByte(major, INFO_INDEFINITE)
    ensures DefiniteString(s, p, major).result.Err?
    ensures DefiniteString(s, p, major).result.error.IsTypeMismatch()
    ensures DefiniteString(s, p, major).next == p + 1
  {
  }

  /** Opening an iterator on an encoded head of the right major type: definite, past the head. */
  lemma IterStartOfHead(s: seq<Byte>, p: nat, major: nat, n: nat)
    requires major < 8 && n < ARGUMENT_LIMIT
    requires EncodedAt(s, p, EncodeHead(major, n))
    ensures IterStart(s, p, major) == Read(Ok(Definite(n)), p + |EncodeHead(major, n)|)
  {
    ArgumentRoundTrip(s, p, major, n);
  }

  /** Draining the iterator of a definite string of n octets at q: those octets once, or nothing when n is 0. */
  lemma CollectDefinite(s: seq<Byte>, q: nat, major: nat, n: nat)
    requires major < 8 && q + n <= |s|
    ensures Collect(s, q, major, Definite(n)) == Read(Ok(if n == 0 then [] else [s[q..q + n]]), q + n)
  {
    if n != 0 {
      assert IterNext(s, q, major, Definite(n)) == Next(Some(Ok(s[q..q + n])), q + n, Definite(0));
      assert Collect(s, q + n, major, Definite(0)) == Read(Ok([]), q + n);
      assert [s[q..q + n]] + [] == [s[q..q + n]];
    }
  }

  /** The chunks of a definite string: none when it is empty, else its payload alone. */
  lemma ChunksOfDefinite(s: seq<Byte>, p: nat, major: nat, payload: seq<Byte>)
    requires major < 8 && |payload| < ARGUMENT_LIMIT
    requires EncodedAt(s, p, EncodeDefinite(major, payload))
    ensures Chunks(s, p, major) ==
            Read(Ok(if payload == [] then [] else [payload]), p + |EncodeDefinite(major, payload)|)
  {
    var h := EncodeHead(major, |payload|);
    assert EncodeDefinite(major, payload) == h + payload;
    EncodedAtSplit(s, p, h, payload);
    IterStartOfHead(s, p, major, |payload|);
    var q := p + |h|;
    assert s[q..q + |payload|] == payload;
    CollectDefinite(s, q, major, |payload|);
  }

  /** One chunk of an indefinite string: the next definite string, the iterator staying indefinite. */
  lemma IterNextOfChunk(s: seq<Byte>, p: nat, major: nat, chunk: seq<Byte>)
    requires major < 8 && |chunk| < ARGUMENT_LIMIT
    requires EncodedAt(s, p, EncodeDefinite(major, chunk))
    ensures IterNext(s, p, major, Indefinite) ==
            Next(Some(Ok(chunk)), p + |EncodeDefinite(major, chunk)|, Indefinite)
  {
    EncodedAtSplit(s, p, EncodeHead(major, |chunk|), chunk);
    ArgumentRoundTrip(s, p, major, |chunk|);
    assert s[p] != BREAK;
    DefiniteStringRoundTrip(s, p, major, chunk);
  }

  lemma ChunksFitTail(chunks: seq<seq<Byte>>)
    requires chunks != [] && ChunksFit(chunks)
    ensures |chunks[0]| < ARGUMENT_LIMIT && ChunksFit(chunks[1..])
  {
    forall i | 0 <= i < |chunks[1..]| ensures |chunks[1..][i]| < ARGUMENT_LIMIT {
      assert chunks[1..][i] == chunks[i + 1];
    }
  }

  /** Encoding a chunk list that starts with c: c's definite encoding, then the rest. */
  lemma EncodeChunksCons(major: nat, c: seq<Byte>, cs: seq<seq<Byte>>)
    requires major < 8 && |c| < ARGUMENT_LIMIT && ChunksFit(cs)
    ensures ChunksFit([c] + cs)
    ensures EncodeChunks(major, [c] + cs) == EncodeDefinite(major, c) + EncodeChunks(major, cs)
  {
    assert ([c] + cs)[1..] == cs;
  }

  /** Encoded chunks followed by one octet: the first chunk's encoding, then the rest and that octet. */
  lemma EncodeChunksThen(major: nat, chunks: seq<seq<Byte>>, last: Byte)
    requires major < 8 && chunks != [] && ChunksFit(chunks)
    requires |chunks[0]| < ARGUMENT_LIMIT && ChunksFit(chunks[1..])
    ensures EncodeChunks(major, chunks) + [last] ==
            EncodeDefinite(major, chunks[0]) + (EncodeChunks(major, chunks[1..]) + [last])
  {
  }

  /** Draining an indefinite iterator that stands on the break: no chunks, the break consumed. */
  lemma CollectOfBreak(s: seq<Byte>, p: nat, major: nat)
    requires major < 8 && p < |s| && s[p] == BREAK
    ensures Collect(s, p, major, Indefinite) == Read(Ok([]), p + 1)
  {
    assert IterNext(s, p, major, Indefinite) == Next(None, p + 1, Indefinite);
  }

  /** One step of draining an indefinite iterator: the first chunk, then what the rest drains to. */
  lemma CollectStep(s: seq<Byte>, p: nat, major: nat, chunks: seq<seq<Byte>>, q: nat, r: nat)
    requires major < 8 && p < q <= |s| && chunks != []
    requires IterNext(s, p, major, Indefinite) == Next(Some(Ok(chunks[0])), q, Indefinite)
    requires Collect(s, q, major, Indefinite) == Read(Ok(chunks[1..]), r)
    ensures Collect(s, p, major, Indefinite) == Read(Ok(chunks), r)
  {
    assert [chunks[0]] + chunks[1..] == chunks;
  }

  /** Encoded chunks and one octet: the first chunk is read next, the rest and that octet follow it. */
  lemma IndefiniteChunkLayout(s: seq<Byte>, p: nat, major: nat, chunks: seq<seq<Byte>>, last: Byte)
    requires major < 8 && ChunksFit(chunks) && chunks != []
    requires EncodedAt(s, p, EncodeChunks(major, chunks) + [last])
    ensures |chunks[0]| < ARGUMENT_LIMIT && ChunksFit(chunks[1..])
    ensures var q := p + |EncodeDefinite(major, chunks[0])|;
      p < q <= |s| && EncodedAt(s, q, EncodeChunks(major, chunks[1..]) + [last]) &&
      IterNext(s, p, major, Indefinite) == Next(Some(Ok(chunks[0])), q, Indefinite) &&
      |EncodeChunks(major, chunks)| == |EncodeDefinite(major, chunks[0])| + |EncodeChunks(major, chunks[1..])|
  {
    ChunksFitTail(chunks);
    var first := EncodeDefinite(major, chunks[0]);
    var rest := EncodeChunks(major, chunks[1..]);
    EncodeChunksThen(major, chunks, last);
    EncodedAtSplit(s, p, first, rest + [last]);
    assert EncodedAt(s, p, first);
    IterNextOfChunk(s, p, major, chunks[0]);
    assert EncodeChunks(major, chunks) == first + rest;
  }

  /** Draining the iterator over encoded chunks and a break yields exactly those chunks. */
  lemma {:induction false} CollectRoundTrip(s: seq<Byte>, p: nat, major: nat, chunks: seq<seq<Byte>>)
    requires major < 8 && ChunksFit(chunks)
    requires EncodedAt(s, p, EncodeChunks(major, chunks) + [BREAK])
    ensures Collect(s, p, major, Indefinite) == Read(Ok(chunks), p + |EncodeChunks(major, chunks)| + 1)
    decreases |chunks|
  {
    if chunks == [] {
      assert EncodeChunks(major, chunks) == [];
      assert s[p] == s[p..p + 1][0];
      CollectOfBreak(s, p, major);
    } else {
      IndefiniteChunkLayout(s, p, major, chunks, BREAK);
      var q := p + |EncodeDefinite(major, chunks[0])|;
      assert q + |EncodeChunks(major, chunks[1..])| == p + |EncodeChunks(major, chunks)|;
      CollectRoundTrip(s, q, major, chunks[1..]);
      CollectStep(s, p, major, chunks, q, q + |EncodeChunks(major, chunks[1..])| + 1);
    }
  }

  /** Draining an indefinite iterator that stands on an octet of another major type: a mismatch there. */
  lemma CollectOfForeign(s: seq<Byte>, p: nat, major: nat)
    requires major < 8 && p < |s| && s[p] != BREAK && Major(s[p]) != major
    ensures Collect(s, p, major, Indefinite) == Read(Err(Mismatch(s[p], p)), p + 1)
  {
    assert IterNext(s, p, major, Indefinite) == Next(Some(Err(Mismatch(s[p], p))), p + 1, Indefinite);
  }

  /** One step of draining an indefinite iterator whose rest fails: the whole drain fails the same way. */
  lemma CollectErrorStep(s: seq<Byte>, p: nat, major: nat, c: seq<Byte>, q: nat, e: Error, r: nat)
    requires major < 8 && p < q <= |s|
    requires IterNext(s, p, major, Indefinite) == Next(Some(Ok(c)), q, Indefinite)
    requires Collect(s, q, major, Indefinite) == Read(Err(e), r)
    ensures Collect(s, p, major, Indefinite) == Read(Err(e), r)
  {
  }

  /**
   * Draining the iterator over encoded chunks followed by an octet b that is neither the break nor
   * the head of a chunk of the same major type: every chunk is read, then b aborts the drain with
   * a type mismatch at its position.
   */
  lemma {:induction false} CollectAbortsOnForeignChunk(s: seq<Byte>, p: nat, major: nat, chunks: seq<seq<Byte>>, b: Byte, k: nat)
    requires major < 8 && ChunksFit(chunks)
    requires EncodedAt(s, p, EncodeChunks(major, chunks) + [b]) && k == p + |EncodeChunks(major, chunks)|
    requires b != BREAK && Major(b) != major
    ensures Collect(s, p, major, Indefinite) == Read(Err(Mismatch(b, k)), k + 1)
    decreases |chunks|
  {
    if chunks == [] {
      assert EncodeChunks(major, chunks) == [];
      assert s[p] == s[p..p + 1][0] == b;
      CollectOfForeign(s, p, major);
    } else {
      IndefiniteChunkLayout(s, p, major, chunks, b);
      var q := p + |EncodeDefinite(major, chunks[0])|;
      assert k == q + |EncodeChunks(major, chunks[1..])|;
      CollectAbortsOnForeignChunk(s, q, major, chunks[1..], b, k);
      CollectErrorStep(s, p, major, chunks[0], q, Mismatch(b, k), k + 1);
    }
  }

  /** The chunks of an indefinite-length string are exactly the chunks it was encoded from. */
  lemma ChunksOfIndefinite(s: seq<Byte>, p: nat, major: nat, chunks: seq<seq<Byte>>)
    requires major < 8 && ChunksFit(chunks)
    requires EncodedAt(s, p, EncodeIndefinite(major, chunks))
    ensures Chunks(s, p, major) == Read(Ok(chunks), p + |EncodeIndefinite(major, chunks)|)
  {
    var body := EncodeChunks(major, chunks);
    assert EncodeIndefinite(major, chunks) == [InitialByte(major, INFO_INDEFINITE)] + (body + [BREAK]);
    EncodedAtSplit(s, p, [InitialByte(major, INFO_INDEFINITE)], body + [BREAK]);
    assert s[p] == s[p..p + 1][0];
    CollectRoundTrip(s, p + 1, major, chunks);
  }

  /**
   * The chunks of an indefinite-length string whose encoded chunks are followed by an octet b that
   * is neither the break nor a chunk head of the same major type: b's type mismatch, at k.
   */
  lemma ChunksAbortOnForeignChunk(s: seq<Byte>, p: nat, major: nat, chunks: seq<seq<Byte>>, b: Byte, k: nat)
    requires major < 8 && ChunksFit(chunks)
    requires EncodedAt(s, p, [InitialByte(major, INFO_INDEFINITE)] + (EncodeChunks(major, chunks) + [b]))
    requires b != BREAK && Major(b) != major && k == p + 1 + |EncodeChunks(major, chunks)|
    ensures k < |s|
    ensures Chunks(s, p, major) == Read(Err(Mismatch(b, k)), k + 1)
  {
    EncodedAtSplit(s, p, [InitialByte(major, INFO_INDEFINITE)], EncodeChunks(major, chunks) + [b]);
    assert s[p] == s[p..p + 1][0];
    CollectAbortsOnForeignChunk(s, p + 1, major, chunks, b, k);
  }

  /** A single chunk flattens to itself. */
  lemma FlattenSingle(c: seq<Byte>)
    ensures Flatten([c]) == c
  {
    assert [c][1..] == [];
  }

  /** The tag number read back from an encoded tag head, the cursor ending after the head. */
  lemma TagRoundTrip(s: seq<Byte>, p: nat, tag: nat)
    requires tag < ARGUMENT_LIMIT
    requires EncodedAt(s, p, EncodeHead(MAJOR_TAG, tag))
    ensures ReadTag(s, p) == Read(Ok(tag), p + |EncodeHead(MAJOR_TAG, tag)|)
  {
    ArgumentRoundTrip(s, p, MAJOR_TAG, tag);
  }
}
