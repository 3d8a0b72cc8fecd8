/**
 * A decoder for CBOR whose schema the caller knows: a cursor over a byte buffer that reads one
 * item per call, with the text-string, byte-string, null and timestamp reads that the generated
 * deserializers use, the combinator for optional members, and the errors the decoder reports.
 */
module CborDecode {
  import opened Wrappers
  import opened Octets
  import opened CborWire

  /** The error every decoding operation reports: a wire-level error, wrapped. */
  datatype DeserializeError = DeserializeError(inner: Error) {

    /** An item of an unexpected type was found (used when a member may be null or a value). */
    predicate IsTypeMismatch()
      ensures IsTypeMismatch() <==> inner.kind.TypeMismatch?
    {
      inner.IsTypeMismatch()
    }
  }

  /** A second union variant of type unexpected was found at position at, where the union should end. */
  function UnexpectedUnionVariant(unexpected: Type, at: nat): (e: DeserializeError)
    ensures e.IsTypeMismatch() && e.inner.kind == TypeMismatch(unexpected)
    ensures e.inner.at == Some(at)
    ensures e.inner.message == "encountered unexpected union variant; expected end of union"
  {
    DeserializeError(Error(TypeMismatch(unexpected), "encountered unexpected union variant; expected end of union", Some(at)))
  }

  /** A second union variant was found at position at before the first one was decoded. */
  function MixedUnionVariants(at: nat): (e: DeserializeError)
    ensures !e.IsTypeMismatch() && e.inner.kind == Message && e.inner.at == Some(at)
    ensures e.inner.message == "encountered mixed variants in union; expected end of union"
  {
    DeserializeError(Error(Message, "encountered mixed variants in union; expected end of union", Some(at)))
  }

  /** The text a string read returns: a slice of the input, or a string assembled from chunks. */
  datatype Text = Borrowed(text: seq<Byte>) | Owned(text: seq<Byte>)

  /** The read r with its error wrapped as a DeserializeError; the cursor position is unchanged. */
  function Lift<T>(r: Read<T, Error>): (l: Read<T, DeserializeError>)
    ensures l.next == r.next
    ensures r.result.Ok? <==> l.result.Ok?
    ensures r.result.Ok? ==> l.result.value == r.result.value
    ensures r.result.Err? ==> l.result.error == DeserializeError(r.result.error)
  {
    match r.result
    case Ok(v) => Read(Ok(v), r.next)
    case Err(e) => Read(Err(DeserializeError(e)), r.next)
  }

  /** acc followed by every chunk of the read r, in order; or r's error. */
  function JoinedFrom(acc: seq<Byte>, r: Read<seq<seq<Byte>>, Error>): (j: Read<seq<Byte>, Error>)
    ensures j.next == r.next
    ensures j.result.Ok? <==> r.result.Ok?
    ensures r.result.Err? ==> j.result.error == r.result.error
  {
    match r.result
    case Ok(cs) => Read(Ok(acc + Flatten(cs)), r.next)
    case Err(e) => Read(Err(e), r.next)
  }

  /** A string of the given major type at p, definite or chunked, as one sequence of octets. */
  function JoinedChunks(s: seq<Byte>, p: nat, major: nat): (r: Read<seq<Byte>, DeserializeError>)
    requires p <= |s| && major < 8
    ensures p <= r.next <= |s|
    ensures r.result.Ok? <==> Chunks(s, p, major).result.Ok?
    ensures r.result.Ok? ==> r.result.value == Flatten(Chunks(s, p, major).result.value)
    ensures r.result.Err? ==> r.result.error == DeserializeError(Chunks(s, p, major).result.error)
    ensures r.next == Chunks(s, p, major).next
  {
    Lift(JoinedFrom([], Chunks(s, p, major)))
  }

  /**
   * The text string at p: a definite string is returned as the slice it occupies; on a type
   * mismatch the cursor goes back to p and the item is read again as a chunked string; any
   * other failure is reported as it is.
   */
  function ReadStr(s: seq<Byte>, p: nat): (r: Read<Text, DeserializeError>)
    requires p <= |s|
    ensures p <= r.next <= |s|
    ensures r.result.Ok? && r.result.value.Borrowed? <==> DefiniteString(s, p, MAJOR_TEXT).result.Ok?
    ensures r.result.Ok? && r.result.value.Borrowed? ==>
              r.next == DefiniteString(s, p, MAJOR_TEXT).next &&
              p < r.next - |r.result.value.text| &&
              r.result.value.text == s[r.next - |r.result.value.text|..r.next] &&
              r.result.value.text == DefiniteString(s, p, MAJOR_TEXT).result.value
    ensures var d := DefiniteString(s, p, MAJOR_TEXT);
            d.result.Err? && !d.result.error.IsTypeMismatch() ==> r == Read(Err(DeserializeError(d.result.error)), d.next)
    ensures var d := DefiniteString(s, p, MAJOR_TEXT);
            d.result.Err? && d.result.error.IsTypeMismatch() ==>
              r.next == JoinedChunks(s, p, MAJOR_TEXT).next &&
              (r.result.Ok? <==> JoinedChunks(s, p, MAJOR_TEXT).result.Ok?) &&
              (r.result.Ok? ==> r.result.value == Owned(JoinedChunks(s, p, MAJOR_TEXT).result.value)) &&
              (r.result.Err? ==> r.result.error == JoinedChunks(s, p, MAJOR_TEXT).result.error)
  {
    DefiniteStringIsSlice(s, p, MAJOR_TEXT);
    var d := DefiniteString(s, p, MAJOR_TEXT);
    match d.result
    case Ok(v) => Read(Ok(Borrowed(v)), d.next)
    case Err(e) =>
      if e.IsTypeMismatch() then
        var j := JoinedChunks(s, p, MAJOR_TEXT);
        match j.result
        case Ok(v) => Read(Ok(Owned(v)), j.next)
        case Err(e') => Read(Err(e'), j.next)
      else Read(Err(DeserializeError(e)), d.next)
  }

  /**
   * The timestamp at p: the tag head must carry the epoch-based date/time tag, and only then
   * is the floating-point payload read.
   */
  function ReadTimestamp(s: seq<Byte>, p: nat): (r: Read<Float, DeserializeError>)
    requires p <= |s|
    ensures p <= r.next <= |s|
    ensures r.result.Ok? ==> ReadTag(s, p).result == Ok(TAG_EPOCH_DATETIME)
    ensures ReadTag(s, p).result.Err? ==>
              r == Read(Err(DeserializeError(ReadTag(s, p).result.error)), ReadTag(s, p).next)
    ensures ReadTag(s, p).result.Ok? && ReadTag(s, p).result.value != TAG_EPOCH_DATETIME ==>
              r == Read(Err(DeserializeError(Error(Message, "expected timestamp tag", None))), ReadTag(s, p).next)
    ensures ReadTag(s, p).result == Ok(TAG_EPOCH_DATETIME) ==> r == Lift(ReadFloat(s, ReadTag(s, p).next))
  {
    var t := ReadTag(s, p);
    match t.result
    case Err(e) => Read(Err(DeserializeError(e)), t.next)
    case Ok(tag) =>
      if tag != TAG_EPOCH_DATETIME then
        Read(Err(DeserializeError(Error(Message, "expected timestamp tag", None))), t.next)
      else Lift(ReadFloat(s, t.next))
  }

  /** The cursor over one encoded input; every read advances it past what it consumed. */
  class Decoder {
    const bytes: seq<Byte>
    var pos: nat

    ghost predicate Valid()
      reads this
    {
      pos <= |bytes|
    }

    constructor (bytes: seq<Byte>)
      ensures Valid() && this.bytes == bytes && pos == 0
    {
      this.bytes := bytes;
      pos := 0;
    }

    /** The type of the item at the cursor; the cursor does not move. */
    function Datatype(): (r: Result<Type, DeserializeError>)
      reads this
      requires Valid()
      ensures r.Ok? <==> pos < |bytes| && TypeOf(bytes[pos]).Some?
      ensures r.Ok? ==> TypeOf(bytes[pos]) == Some(r.value)
      ensures pos == |bytes| ==> r == Err(DeserializeError(EndOfInputError()))
    {
      match PeekType(bytes, pos)
      case Ok(t) => Ok(t)
      case Err(e) => Err(DeserializeError(e))
    }

    /** The position of the next item to decode; it never lies past the end of the input. */
    function Position(): (p: nat)
      reads this
      requires Valid()
      ensures p == pos && p <= |bytes|
    {
      pos
    }

    /** Reads the null item at the cursor. */
    method Null() returns (r: Result<(), DeserializeError>)
      requires Valid()
      modifies this
      ensures Valid()
      ensures Read(r, pos) == Lift(ReadNull(bytes, old(pos)))
    {
      var n := ReadNull(bytes, pos);
      pos := n.next;
      match n.result {
        case Ok(u) => r := Ok(u);
        case Err(e) => r := Err(DeserializeError(e));
      }
    }

    /** Reads the text string at the cursor, borrowed when definite, assembled when chunked. */
    method Str() returns (r: Result<Text, DeserializeError>)
      requires Valid()
      modifies this
      ensures Valid()
      ensures Read(r, pos) == ReadStr(bytes, old(pos))
    {
      var bookmark := pos;
      var d := DefiniteString(bytes, pos, MAJOR_TEXT);
      pos := d.next;
      match d.result {
        case Ok(v) =>
          r := Ok(Borrowed(v));
        case Err(e) =>
          if e.IsTypeMismatch() {
            pos := bookmark;
            var joined := String();
            match joined {
              case Ok(v) => r := Ok(Owned(v));
              case Err(e') => r := Err(e');
            }
          } else {
            r := Err(DeserializeError(e));
          }
      }
    }

    /** Reads the text string at the cursor, definite or chunked, into one string. */
    method String() returns (r: Result<seq<Byte>, DeserializeError>)
      requires Valid()
      modifies this
      ensures Valid()
      ensures Read(r, pos) == JoinedChunks(bytes, old(pos), MAJOR_TEXT)
    {
      ghost var goal := JoinedFrom([], Chunks(bytes, pos, MAJOR_TEXT));
      var start := IterStart(bytes, pos, MAJOR_TEXT);
      pos := start.next;
      if start.result.Err? {
        return Err(DeserializeError(start.result.error));
      }
      var len := start.result.value;
      assert goal == JoinedFrom([], Collect(bytes, pos, MAJOR_TEXT, len));
      JoinedFromStep(bytes, pos, MAJOR_TEXT, len, []);
      var head := IterNext(bytes, pos, MAJOR_TEXT, len);
      pos, len := head.next, head.len;
      match head.item {
        case None =>
          r := Ok([]);
        case Some(Err(e)) =>
          r := Err(DeserializeError(e));
        case Some(Ok(first)) =>
          var combined := first;
          assert [] + first == first;
          while true
            invariant pos <= |bytes|
            invariant JoinedFrom(combined, Collect(bytes, pos, MAJOR_TEXT, len)) == goal
            decreases |bytes| - pos
          {
            JoinedFromStep(bytes, pos, MAJOR_TEXT, len, combined);
            var chunk := IterNext(bytes, pos, MAJOR_TEXT, len);
            pos, len := chunk.next, chunk.len;
            match chunk.item {
              case None =>
                break;
              case Some(Err(e)) =>
                return Err(DeserializeError(e));
              case Some(Ok(c)) =>
                combined := combined + c;
            }
          }
          r := Ok(combined);
      }
    }

    /** Reads the byte string at the cursor, definite or chunked, into one blob. */
    method Blob() returns (r: Result<seq<Byte>, DeserializeError>)
      requires Valid()
      modifies this
      ensures Valid()
      ensures Read(r, pos) == JoinedChunks(bytes, old(pos), MAJOR_BYTES)
    {
      ghost var goal := JoinedFrom([], Chunks(bytes, pos, MAJOR_BYTES));
      var start := IterStart(bytes, pos, MAJOR_BYTES);
      pos := start.next;
      if start.result.Err? {
        return Err(DeserializeError(start.result.error));
      }
      var len := start.result.value;
      var parts: seq<seq<Byte>> := [];
      assert goal == JoinedFrom(Flatten(parts), Collect(bytes, pos, MAJOR_BYTES, len));
      while true
        invariant pos <= |bytes|
        invariant JoinedFrom(Flatten(parts), Collect(bytes, pos, MAJOR_BYTES, len)) == goal
        decreases |bytes| - pos
      {
        JoinedFromStep(bytes, pos, MAJOR_BYTES, len, Flatten(parts));
        var chunk := IterNext(bytes, pos, MAJOR_BYTES, len);
        pos, len := chunk.next, chunk.len;
        match chunk.item {
          case None =>
            break;
          case Some(Err(e)) =>
            return Err(DeserializeError(e));
          case Some(Ok(c)) =>
            FlattenSnoc(parts, c);
            parts := parts + [c];
        }
      }
      if |parts| == 1 {
        FlattenSingle(parts[0]);
        assert parts == [parts[0]];
        r := Ok(parts[0]);
      } else {
        r := Ok(Flatten(parts));
      }
    }

    /** Reads the epoch-based timestamp at the cursor, as its raw floating-point payload. */
    method Timestamp() returns (r: Result<Float, DeserializeError>)
      requires Valid()
      modifies this
      ensures Valid()
      ensures Read(r, pos) == ReadTimestamp(bytes, old(pos))
    {
      var t := ReadTag(bytes, pos);
      pos := t.next;
      match t.result {
        case Err(e) =>
          r := Err(DeserializeError(e));
        case Ok(tag) =>
          if tag != TAG_EPOCH_DATETIME {
            r := Err(DeserializeError(Error(Message, "expected timestamp tag", None)));
          } else {
            var f := ReadFloat(bytes, pos);
            pos := f.next;
            match f.result {
              case Ok(v) => r := Ok(v);
              case Err(e) => r := Err(DeserializeError(e));
            }
          }
      }
    }
  }

  /**
   * Decodes an optional member: a null item is consumed and the builder is returned as it was;
   * any other item is left to f, which receives the builder and the cursor position untouched.
   * The callback is modelled by its effect: its result and where it leaves the cursor.
   */
  method SetOptional<B>(builder: B, decoder: Decoder, f: (B, nat) -> Read<B, DeserializeError>)
    returns (r: Result<B, DeserializeError>)
    requires decoder.Valid()
    requires forall b: B, p: nat :: p <= |decoder.bytes| ==> f(b, p).next <= |decoder.bytes|
    modifies decoder
    ensures decoder.Valid()
    ensures old(decoder.Datatype()).Err? ==> r == Err(old(decoder.Datatype()).error) && decoder.pos == old(decoder.pos)
    ensures old(decoder.Datatype()) == Ok(Null) ==> r == Ok(builder) && decoder.pos == old(decoder.pos) + 1
    ensures old(decoder.Datatype()).Ok? && old(decoder.Datatype()) != Ok(Null) ==>
              Read(r, decoder.pos) == f(builder, old(decoder.pos))
  {
    var ty := decoder.Datatype();
    match ty {
      case Err(e) =>
        r := Err(e);
      case Ok(t) =>
        if t == Null {
          var n := decoder.Null();
          match n {
            case Ok(_) => r := Ok(builder);
            case Err(e) => r := Err(e);
          }
        } else {
          var out := f(builder, decoder.pos);
          decoder.pos := out.next;
          r := out.result;
        }
    }
  }

  // ---------------------------------------------------------------------------------------------
  // Lemmas

  /** Joining a chunk list that starts with c appends c and then the rest. */
  lemma FlattenCons(c: seq<Byte>, cs: seq<seq<Byte>>)
    ensures Flatten([c] + cs) == c + Flatten(cs)
  {
    assert ([c] + cs)[1..] == cs;
  }

  /** Joining a chunk list that ends with c appends c last. */
  lemma {:induction false} FlattenSnoc(cs: seq<seq<Byte>>, c: seq<Byte>)
    ensures Flatten(cs + [c]) == Flatten(cs) + c
  {
    if cs == [] {
      FlattenSingle(c);
      assert cs + [c] == [c];
    } else {
      assert (cs + [c])[1..] == cs[1..] + [c];
      FlattenSnoc(cs[1..], c);
    }
  }

  /** One iterator step, seen from the joined result: a chunk moves into the accumulator. */
  lemma JoinedFromStep(s: seq<Byte>, p: nat, major: nat, len: IterLen, acc: seq<Byte>)
    requires p <= |s| && major < 8
    ensures var n := IterNext(s, p, major, len);
      && (n.item.None? ==> JoinedFrom(acc, Collect(s, p, major, len)) == Read(Ok(acc), n.next))
      && (n.item.Some? && n.item.value.Err? ==>
            JoinedFrom(acc, Collect(s, p, major, len)) == Read(Err(n.item.value.error), n.next))
      && (n.item.Some? && n.item.value.Ok? ==>
            JoinedFrom(acc, Collect(s, p, major, len)) ==
            JoinedFrom(acc + n.item.value.value, Collect(s, n.next, major, n.len)))
  {
    var n := IterNext(s, p, major, len);
    if n.item.Some? && n.item.value.Ok? {
      var c := n.item.value.value;
      var rest := Collect(s, n.next, major, n.len);
      if rest.result.Ok? {
        var cs := rest.result.value;
        assert Collect(s, p, major, len) == Read(Ok([c] + cs), rest.next);
        FlattenCons(c, cs);
        assert acc + (c + Flatten(cs)) == (acc + c) + Flatten(cs);
      }
    } else if n.item.None? {
      assert Collect(s, p, major, len) == Read(Ok([]), n.next);
      assert acc + Flatten([]) == acc;
    }
  }

  /** A definite text string is returned borrowed, exactly as encoded, the cursor past the item. */
  lemma StrOfDefiniteText(s: seq<Byte>, p: nat, text: seq<Byte>)
    requires |text| < ARGUMENT_LIMIT
    requires EncodedAt(s, p, EncodeDefinite(MAJOR_TEXT, text))
    ensures ReadStr(s, p) == Read(Ok(Borrowed(text)), p + |EncodeDefinite(MAJOR_TEXT, text)|)
  {
    DefiniteStringRoundTrip(s, p, MAJOR_TEXT, text);
  }

  /**
   * A text head of any width, preferred or not, whose argument n ends at q: the n octets from q are
   * returned borrowed, the cursor past them.
   */
  lemma StrOfAnyDefiniteHead(s: seq<Byte>, p: nat, n: nat, q: nat)
    requires p < |s| && q + n <= |s|
    requires Major(s[p]) == MAJOR_TEXT && Info(s[p]) < 28
    requires Argument(s, p + 1, s[p]) == Read(Ok(n), q)
    ensures ReadStr(s, p) == Read(Ok(Borrowed(s[q..q + n])), q + n)
  {
    DefiniteStringOfHead(s, p, MAJOR_TEXT, n, q);
  }

  /** `0x78 0x03 "abc"`: a one-octet argument where the preferred head would hold it in the initial byte. */
  lemma StrOfLongHeadExample()
    ensures ReadStr([0x78, 0x03, 0x61, 0x62, 0x63], 0) == Read(Ok(Borrowed([0x61, 0x62, 0x63])), 5)
  {
    var s: seq<Byte> := [0x78, 0x03, 0x61, 0x62, 0x63];
    assert Major(s[0]) == MAJOR_TEXT && Info(s[0]) == 24 && ArgumentWidth(24) == 1;
    assert s[1..2] == [0x03] && BigEndian([0x03]) == 3 by {
      assert [0x03][..0] == [];
    }
    assert Argument(s, 1, s[0]) == Read(Ok(3), 2);
    StrOfAnyDefiniteHead(s, 0, 3, 2);
    assert s[2..5] == [0x61, 0x62, 0x63];
  }

  /**
   * A chunked text string first fails the definite read with a type mismatch; the retry from the
   * item's start returns every chunk joined in order, owned, with the cursor past the break.
   */
  lemma StrOfIndefiniteText(s: seq<Byte>, p: nat, chunks: seq<seq<Byte>>)
    requires ChunksFit(chunks)
    requires EncodedAt(s, p, EncodeIndefinite(MAJOR_TEXT, chunks))
    ensures ReadStr(s, p) == Read(Ok(Owned(Flatten(chunks))), p + |EncodeIndefinite(MAJOR_TEXT, chunks)|)
  {
    ChunksOfIndefinite(s, p, MAJOR_TEXT, chunks);
    assert s[p] == s[p..p + |EncodeIndefinite(MAJOR_TEXT, chunks)|][0];
    DefiniteStringRejectsIndefinite(s, p, MAJOR_TEXT);
  }

  /** An item of another known type is rejected once, with the type it has, and is not retried past its start. */
  lemma StrOfOtherType(s: seq<Byte>, p: nat)
    requires p < |s| && Major(s[p]) != MAJOR_TEXT && TypeOf(s[p]).Some?
    ensures ReadStr(s, p) == Read(Err(DeserializeError(Mismatch(s[p], p))), p + 1)
  {
  }

  /** A definite text head of any width announcing more octets than remain: the end of input is reported, not retried. */
  lemma StrOfTruncatedText(s: seq<Byte>, p: nat, n: nat, q: nat)
    requires p < |s| && Major(s[p]) == MAJOR_TEXT && Info(s[p]) < 28
    requires Argument(s, p + 1, s[p]) == Read(Ok(n), q) && q + n > |s|
    ensures ReadStr(s, p) == Read(Err(DeserializeError(EndOfInputError())), q)
  {
  }

  /** Chunks that fail to read make the join fail with the same error, wrapped, at the same position. */
  lemma JoinedOfFailedChunks(s: seq<Byte>, p: nat, major: nat, e: Error, r: nat)
    requires p <= |s| && major < 8
    requires Chunks(s, p, major) == Read(Err(e), r)
    ensures JoinedChunks(s, p, major) == Read(Err(DeserializeError(e)), r)
  {
  }

  /**
   * A chunked string whose encoded chunks are followed by an octet b that is neither the break nor
   * a chunk head of the same major type: the whole read fails with b's type mismatch at b's position k.
   */
  lemma JoinedAbortsOnForeignChunk(s: seq<Byte>, p: nat, major: nat, chunks: seq<seq<Byte>>, b: Byte, k: nat)
    requires major == MAJOR_BYTES || major == MAJOR_TEXT
    requires ChunksFit(chunks)
    requires EncodedAt(s, p, [InitialByte(major, INFO_INDEFINITE)] + (EncodeChunks(major, chunks) + [b]))
    requires b != BREAK && Major(b) != major && k == p + 1 + |EncodeChunks(major, chunks)|
    ensures JoinedChunks(s, p, major) == Read(Err(DeserializeError(Mismatch(b, k))), k + 1)
  {
    ChunksAbortOnForeignChunk(s, p, major, chunks, b, k);
    JoinedOfFailedChunks(s, p, major, Mismatch(b, k), k + 1);
  }

  /** The first chunk of a chunked string is of another major type: the read fails right there. */
  lemma JoinedAbortsOnForeignFirstChunk(s: seq<Byte>, p: nat, major: nat)
    requires major == MAJOR_BYTES || major == MAJOR_TEXT
    requires p + 1 < |s| && s[p] == InitialByte(major, INFO_INDEFINITE)
    requires s[p + 1] != BREAK && Major(s[p + 1]) != major
    ensures JoinedChunks(s, p, major) == Read(Err(DeserializeError(Mismatch(s[p + 1], p + 1))), p + 2)
  {
    assert s[p..p + 2] == [InitialByte(major, INFO_INDEFINITE)] + (EncodeChunks(major, []) + [s[p + 1]]);
    JoinedAbortsOnForeignChunk(s, p, major, [], s[p + 1], p + 1);
  }

  /** A definite head of any width whose argument n ends at q: the join is the n octets from q. */
  lemma JoinedOfAnyDefiniteHead(s: seq<Byte>, p: nat, major: nat, n: nat, q: nat)
    requires major < 8 && p < |s| && q + n <= |s|
    requires Major(s[p]) == major && Info(s[p]) < 28
    requires Argument(s, p + 1, s[p]) == Read(Ok(n), q)
    ensures JoinedChunks(s, p, major) == Read(Ok(s[q..q + n]), q + n)
  {
    assert IterStart(s, p, major) == Read(Ok(Definite(n)), q);
    CollectDefinite(s, q, major, n);
    assert Chunks(s, p, major) == Read(Ok(if n == 0 then [] else [s[q..q + n]]), q + n);
    if n != 0 {
      FlattenSingle(s[q..q + n]);
      assert [] + s[q..q + n] == s[q..q + n];
    } else {
      assert s[q..q + n] == [] + Flatten([]);
    }
  }

  /** A definite string of either kind joins to its payload (empty when the payload is). */
  lemma JoinedOfDefinite(s: seq<Byte>, p: nat, major: nat, payload: seq<Byte>)
    requires major < 8 && |payload| < ARGUMENT_LIMIT
    requires EncodedAt(s, p, EncodeDefinite(major, payload))
    ensures JoinedChunks(s, p, major) == Read(Ok(payload), p + |EncodeDefinite(major, payload)|)
  {
    ChunksOfDefinite(s, p, major, payload);
    if payload != [] {
      FlattenSingle(payload);
    }
  }

  /** A chunked string of either kind joins to the in-order concatenation of its chunks. */
  lemma JoinedOfIndefinite(s: seq<Byte>, p: nat, major: nat, chunks: seq<seq<Byte>>)
    requires major < 8 && ChunksFit(chunks)
    requires EncodedAt(s, p, EncodeIndefinite(major, chunks))
    ensures JoinedChunks(s, p, major) == Read(Ok(Flatten(chunks)), p + |EncodeIndefinite(major, chunks)|)
  {
    ChunksOfIndefinite(s, p, major, chunks);
  }

  /** A timestamp tagged as an epoch-based date/time yields the float that follows the tag. */
  lemma TimestampOfEpochTag(s: seq<Byte>, p: nat, bits: seq<Byte>)
    requires |bits| == 8
    requires EncodedAt(s, p, EncodeHead(MAJOR_TAG, TAG_EPOCH_DATETIME) + [0xfb] + bits)
    ensures ReadTimestamp(s, p) == Read(Ok(Float(8, bits)), p + |EncodeHead(MAJOR_TAG, TAG_EPOCH_DATETIME)| + 9)
  {
    var h := EncodeHead(MAJOR_TAG, TAG_EPOCH_DATETIME);
    assert h + [0xfb] + bits == h + ([0xfb] + bits);
    EncodedAtSplit(s, p, h, [0xfb] + bits);
    TagRoundTrip(s, p, TAG_EPOCH_DATETIME);
    var q := p + |h|;
    assert s[q] == s[q..q + 9][0];
    assert s[q + 1..q + 9] == s[q..q + 9][1..];
  }

  /** Any other tag is rejected with the cursor right after the tag head: the payload is not read. */
  lemma TimestampRejectsOtherTag(s: seq<Byte>, p: nat, tag: nat)
    requires tag < ARGUMENT_LIMIT && tag != TAG_EPOCH_DATETIME
    requires EncodedAt(s, p, EncodeHead(MAJOR_TAG, tag))
    ensures ReadTimestamp(s, p) ==
            Read(Err(DeserializeError(Error(Message, "expected timestamp tag", None))), p + |EncodeHead(MAJOR_TAG, tag)|)
  {
    TagRoundTrip(s, p, tag);
  }
  // ---------------------------------------------------------------------------------------------
  // The decoder's own examples

  /** The octets of the texts "this", "Is", "A" and "Key". */
  const KEY_PART_0: seq<Byte> := [0x74, 0x68, 0x69, 0x73]
  const KEY_PART_1: seq<Byte> := [0x49, 0x73]
  const KEY_PART_2: seq<Byte> := [0x41]
  const KEY_PART_3: seq<Byte> := [0x4b, 0x65, 0x79]

  /** The octets of the text "thisIsAKey". */
  const THIS_IS_A_KEY: seq<Byte> := KEY_PART_0 + KEY_PART_1 + KEY_PART_2 + KEY_PART_3

  /** The octets of the texts "indefinite-byte,", " chunked," and " on each comma". */
  const BLOB_PART_0: seq<Byte> := [0x69, 0x6e, 0x64, 0x65, 0x66, 0x69, 0x6e, 0x69, 0x74, 0x65, 0x2d, 0x62, 0x79, 0x74, 0x65, 0x2c]
  const BLOB_PART_1: seq<Byte> := [0x20, 0x63, 0x68, 0x75, 0x6e, 0x6b, 0x65, 0x64, 0x2c]
  const BLOB_PART_2: seq<Byte> := [0x20, 0x6f, 0x6e, 0x20, 0x65, 0x61, 0x63, 0x68, 0x20, 0x63, 0x6f, 0x6d, 0x6d, 0x61]

  /** The octets of the text "indefinite-byte, chunked, on each comma". */
  const CHUNKED_BLOB: seq<Byte> := BLOB_PART_0 + BLOB_PART_1 + BLOB_PART_2

  /** "thisIsAKey" as an indefinite text string in the chunks "this", "Is", "A", "Key". */
  const CHUNKED_KEY_WIRE: seq<Byte> :=
    [0x7f, 0x64] + KEY_PART_0 + [0x62] + KEY_PART_1 + [0x61] + KEY_PART_2 + [0x63] + KEY_PART_3 + [0xff]

  /** CHUNKED_BLOB as an indefinite byte string split after each comma. */
  const CHUNKED_BLOB_WIRE: seq<Byte> := [0x5f, 0x50] + BLOB_PART_0 + [0x49] + BLOB_PART_1 + [0x4e] + BLOB_PART_2 + [0xff]

  /** 0x6a followed by "thisIsAKey" reads as that key, borrowed, the cursor at the end. */
  lemma DefiniteKeyExample()
    ensures ReadStr([0x6a] + THIS_IS_A_KEY, 0) == Read(Ok(Borrowed(THIS_IS_A_KEY)), 11)
  {
    var s := [0x6a] + THIS_IS_A_KEY;
    assert EncodeDefinite(MAJOR_TEXT, THIS_IS_A_KEY) == s;
    StrOfDefiniteText(s, 0, THIS_IS_A_KEY);
  }

  /** The chunks of the chunked key example. */
  const KEY_CHUNKS: seq<seq<Byte>> := [KEY_PART_0, KEY_PART_1, KEY_PART_2, KEY_PART_3]

  lemma KeyChunksEncoding()
    ensures ChunksFit(KEY_CHUNKS)
    ensures EncodeIndefinite(MAJOR_TEXT, KEY_CHUNKS) == CHUNKED_KEY_WIRE
  {
    var tail3: seq<seq<Byte>> := [KEY_PART_3];
    var tail2 := [KEY_PART_2] + tail3;
    var tail1 := [KEY_PART_1] + tail2;
    assert KEY_CHUNKS == [KEY_PART_0] + tail1;
    EncodeChunksCons(MAJOR_TEXT, KEY_PART_3, []);
    assert [KEY_PART_3] + [] == tail3;
    EncodeChunksCons(MAJOR_TEXT, KEY_PART_2, tail3);
    EncodeChunksCons(MAJOR_TEXT, KEY_PART_1, tail2);
    EncodeChunksCons(MAJOR_TEXT, KEY_PART_0, tail1);
    KeyWireShape(EncodeDefinite(MAJOR_TEXT, KEY_PART_0), EncodeDefinite(MAJOR_TEXT, KEY_PART_1),
                 EncodeDefinite(MAJOR_TEXT, KEY_PART_2), EncodeDefinite(MAJOR_TEXT, KEY_PART_3));
  }

  /** The wire form of the chunked key example, given the definite encodings of its four parts. */
  lemma KeyWireShape(e0: seq<Byte>, e1: seq<Byte>, e2: seq<Byte>, e3: seq<Byte>)
    requires e0 == EncodeDefinite(MAJOR_TEXT, KEY_PART_0)
    requires e1 == EncodeDefinite(MAJOR_TEXT, KEY_PART_1)
    requires e2 == EncodeDefinite(MAJOR_TEXT, KEY_PART_2)
    requires e3 == EncodeDefinite(MAJOR_TEXT, KEY_PART_3)
    ensures [InitialByte(MAJOR_TEXT, INFO_INDEFINITE)] + (e0 + (e1 + (e2 + (e3 + [])))) + [BREAK] == CHUNKED_KEY_WIRE
  {
    assert e0 == [0x64] + KEY_PART_0 && e1 == [0x62] + KEY_PART_1;
    assert e2 == [0x61] + KEY_PART_2 && e3 == [0x63] + KEY_PART_3;
  }

  lemma KeyChunksJoin()
    ensures Flatten(KEY_CHUNKS) == THIS_IS_A_KEY
  {
    var tail3: seq<seq<Byte>> := [KEY_PART_3];
    var tail2 := [KEY_PART_2] + tail3;
    var tail1 := [KEY_PART_1] + tail2;
    assert KEY_CHUNKS == [KEY_PART_0] + tail1;
    FlattenCons(KEY_PART_3, []);
    assert [KEY_PART_3] + [] == tail3;
    FlattenCons(KEY_PART_2, tail3);
    FlattenCons(KEY_PART_1, tail2);
    FlattenCons(KEY_PART_0, tail1);
  }

  /** The key in four chunks "this", "Is", "A", "Key" reads as the whole key, owned. */
  lemma IndefiniteKeyExample()
    ensures ReadStr(CHUNKED_KEY_WIRE, 0) == Read(Ok(Owned(THIS_IS_A_KEY)), 16)
  {
    KeyChunksEncoding();
    KeyChunksJoin();
    StrOfIndefiniteText(CHUNKED_KEY_WIRE, 0, KEY_CHUNKS);
  }

  /** 0x60 reads as the empty text. */
  lemma EmptyStrExample()
    ensures ReadStr([0x60], 0) == Read(Ok(Borrowed([])), 1)
  {
    assert EncodeDefinite(MAJOR_TEXT, []) == [0x60];
    StrOfDefiniteText([0x60], 0, []);
  }

  /** 0x40 reads as the empty blob. */
  lemma EmptyBlobExample()
    ensures JoinedChunks([0x40], 0, MAJOR_BYTES) == Read(Ok([]), 1)
  {
    assert EncodeDefinite(MAJOR_BYTES, []) == [0x40];
    JoinedOfDefinite([0x40], 0, MAJOR_BYTES, []);
  }

  /** The chunks of the blob example, and the wire form they encode to. */
  const BLOB_CHUNKS: seq<seq<Byte>> := [BLOB_PART_0, BLOB_PART_1, BLOB_PART_2]

  lemma BlobChunksEncoding()
    ensures ChunksFit(BLOB_CHUNKS)
    ensures EncodeIndefinite(MAJOR_BYTES, BLOB_CHUNKS) == CHUNKED_BLOB_WIRE
  {
    var tail2: seq<seq<Byte>> := [BLOB_PART_2];
    var tail1 := [BLOB_PART_1] + tail2;
    assert BLOB_CHUNKS == [BLOB_PART_0] + tail1;
    EncodeChunksCons(MAJOR_BYTES, BLOB_PART_2, []);
    assert [BLOB_PART_2] + [] == tail2;
    EncodeChunksCons(MAJOR_BYTES, BLOB_PART_1, tail2);
    EncodeChunksCons(MAJOR_BYTES, BLOB_PART_0, tail1);
    BlobWireShape(EncodeDefinite(MAJOR_BYTES, BLOB_PART_0), EncodeDefinite(MAJOR_BYTES, BLOB_PART_1),
                  EncodeDefinite(MAJOR_BYTES, BLOB_PART_2));
  }

  /** The wire form of the blob example, given the definite encodings of its three parts. */
  lemma BlobWireShape(e0: seq<Byte>, e1: seq<Byte>, e2: seq<Byte>)
    requires e0 == EncodeDefinite(MAJOR_BYTES, BLOB_PART_0)
    requires e1 == EncodeDefinite(MAJOR_BYTES, BLOB_PART_1)
    requires e2 == EncodeDefinite(MAJOR_BYTES, BLOB_PART_2)
    ensures [InitialByte(MAJOR_BYTES, INFO_INDEFINITE)] + (e0 + (e1 + (e2 + []))) + [BREAK] == CHUNKED_BLOB_WIRE
  {
    assert e0 == [0x50] + BLOB_PART_0 && e1 == [0x49] + BLOB_PART_1 && e2 == [0x4e] + BLOB_PART_2;
  }

  lemma BlobChunksJoin()
    ensures Flatten(BLOB_CHUNKS) == CHUNKED_BLOB
  {
    var tail2: seq<seq<Byte>> := [BLOB_PART_2];
    var tail1 := [BLOB_PART_1] + tail2;
    assert BLOB_CHUNKS == [BLOB_PART_0] + tail1;
    FlattenCons(BLOB_PART_2, []);
    assert [BLOB_PART_2] + [] == tail2;
    FlattenCons(BLOB_PART_1, tail2);
    FlattenCons(BLOB_PART_0, tail1);
  }

  /** A chunked byte string split at each comma reads as the whole text. */
  lemma IndefiniteBlobExample()
    ensures JoinedChunks(CHUNKED_BLOB_WIRE, 0, MAJOR_BYTES) == Read(Ok(CHUNKED_BLOB), 44)
  {
    BlobChunksEncoding();
    BlobChunksJoin();
    JoinedOfIndefinite(CHUNKED_BLOB_WIRE, 0, MAJOR_BYTES, BLOB_CHUNKS);
  }
}
