/**
 Record-IO framing: every record is prefixed with its length in base 10 and a newline.
 The decoder is incremental: it is handed the byte stream in arbitrary chunks.
 */
module RecordIO {
  import opened Wrappers

  /** The values of `size_t` are the naturals below this bound. */
  const SIZE_LIMIT: nat := 0x1_0000_0000_0000_0000

  /** `numify<size_t>`: reads a length header, or refuses it. */
  type Numify = string -> Option<nat>

  // ---------------------------------------------------------------- encoding

  function Digit(d: nat): (c: char)
    requires d < 10
    ensures c != '\n'
  {
    '0' + d as char
  }

  /** `stringify` of a size. */
  function Decimal(n: nat): (s: string)
    ensures s != "" && '\n' !in s
  {
    if n < 10 then [Digit(n)] else Decimal(n / 10) + [Digit(n % 10)]
  }

  /** Digits only, and no leading zero but that of zero itself. */
  lemma {:induction false} DecimalIsPlain(n: nat)
    ensures forall i | 0 <= i < |Decimal(n)| :: '0' <= Decimal(n)[i] <= '9'
    ensures Decimal(n)[0] == '0' <==> n == 0
    ensures n == 0 ==> Decimal(n) == "0"
  {
    if n >= 10 {
      DecimalIsPlain(n / 10);
    }
  }

  function Encode(record: string): string {
    Decimal(|record|) + "\n" + record
  }

  function EncodeAll(records: seq<string>): string {
    if records == [] then "" else Encode(records[0]) + EncodeAll(records[1..])
  }

  function Flatten(chunks: seq<string>): string {
    if chunks == [] then "" else chunks[0] + Flatten(chunks[1..])
  }

  /** The one fact about `numify` that the round trip needs. */
  ghost predicate InvertsDecimal(numify: Numify) {
    forall n: nat | n < SIZE_LIMIT :: numify(Decimal(n)) == Some(n)
  }

  /** Plain base 10 parsing, one `numify` that has it. */
  function ParseDecimal(s: string): Option<nat> {
    if s == "" then None
    else
      var c := s[|s| - 1];
      if !('0' <= c <= '9') then None
      else
        var d := c as nat - '0' as nat;
        if |s| == 1 then Some(d)
        else match ParseDecimal(s[..|s| - 1])
          case None => None
          case Some(n) => Some(10 * n + d)
  }

  lemma {:induction false} ParseDecimalInverts(n: nat)
    ensures ParseDecimal(Decimal(n)) == Some(n)
  {
    if n >= 10 {
      ParseDecimalInverts(n / 10);
      var s := Decimal(n);
      assert s[..|s| - 1] == Decimal(n / 10);
    }
  }

  lemma ParseDecimalInvertsDecimal()
    ensures InvertsDecimal(ParseDecimal)
  {
    forall n: nat | n < SIZE_LIMIT
      ensures ParseDecimal(Decimal(n)) == Some(n)
    {
      ParseDecimalInverts(n);
    }
  }

  // ---------------------------------------------------------------- the decoder, byte by byte

  datatype Phase = Header | Record | Failed

  datatype DecoderState = DecoderState(phase: Phase, buffer: string, length: Option<nat>) {
    /** What makes the two `CHECK`s in the record phase hold. */
    predicate Valid() {
      phase == Record ==> length.Some? && |buffer| < length.value
    }
  }

  const INITIAL: DecoderState := DecoderState(Header, "", None)

  /** A decoder together with the records completed on the way to it. */
  datatype Fed = Fed(state: DecoderState, records: seq<string>)

  function DecodeByte(numify: Numify, st: DecoderState, c: char): (r: Fed)
    requires st.Valid()
    ensures r.state.Valid()
  {
    match st.phase
    case Header =>
      if c != '\n' then Fed(st.(buffer := st.buffer + [c]), [])
      else (
        match numify(st.buffer)
        case None => Fed(st.(phase := Failed), [])
        case Some(n) =>
          if n == 0 then Fed(DecoderState(Header, "", Some(0)), [""])
          else Fed(DecoderState(Record, "", Some(n)), [])
      )
    case Record =>
      var buffer := st.buffer + [c];
      if |buffer| == st.length.value then Fed(DecoderState(Header, "", st.length), [buffer])
      else Fed(st.(buffer := buffer), [])
    case Failed => Fed(st, [])
  }

  function Feed(numify: Numify, st: DecoderState, data: string): (r: Fed)
    requires st.Valid()
    ensures r.state.Valid()
    decreases data
  {
    if data == "" then Fed(st, [])
    else
      var first := DecodeByte(numify, st, data[0]);
      var rest := Feed(numify, first.state, data[1..]);
      Fed(rest.state, first.records + rest.records)
  }

  /** Feeding two pieces one after the other is feeding their concatenation. */
  lemma {:induction false} FeedAppend(numify: Numify, st: DecoderState, a: string, b: string)
    requires st.Valid()
    ensures
      var first := Feed(numify, st, a);
      var second := Feed(numify, first.state, b);
      Feed(numify, st, a + b) == Fed(second.state, first.records + second.records)
    decreases a
  {
    if a == "" {
      assert a + b == b;
    } else {
      var step := DecodeByte(numify, st, a[0]);
      assert (a + b)[0] == a[0] && (a + b)[1..] == a[1..] + b;
      FeedAppend(numify, step.state, a[1..], b);
      var first := Feed(numify, step.state, a[1..]);
      var second := Feed(numify, first.state, b);
      assert (step.records + first.records) + second.records == step.records + (first.records + second.records);
    }
  }

  lemma {:induction false} FeedSingle(numify: Numify, st: DecoderState, c: char)
    requires st.Valid()
    ensures Feed(numify, st, [c]) == DecodeByte(numify, st, c)
  {
    var step := DecodeByte(numify, st, c);
    assert Feed(numify, step.state, [c][1..]) == Fed(step.state, []);
    assert step.records + [] == step.records;
  }

  lemma {:induction false} FeedLast(numify: Numify, st: DecoderState, data: string, c: char)
    requires st.Valid()
    ensures
      var before := Feed(numify, st, data);
      var step := DecodeByte(numify, before.state, c);
      Feed(numify, st, data + [c]) == Fed(step.state, before.records + step.records)
  {
    FeedAppend(numify, st, data, [c]);
    FeedSingle(numify, Feed(numify, st, data).state, c);
  }

  lemma {:induction false} FeedOne(numify: Numify, st: DecoderState, data: string, i: nat)
    requires st.Valid() && i < |data|
    ensures
      var before := Feed(numify, st, data[..i]);
      var step := DecodeByte(numify, before.state, data[i]);
      Feed(numify, st, data[..i + 1]) == Fed(step.state, before.records + step.records)
  {
    FeedLast(numify, st, data[..i], data[i]);
    assert data[..i + 1] == data[..i] + [data[i]];
  }

  lemma {:induction false} FeedFailed(numify: Numify, st: DecoderState, data: string)
    requires st.phase == Failed
    ensures Feed(numify, st, data) == Fed(st, [])
    decreases data
  {
    if data != "" {
      FeedFailed(numify, st, data[1..]);
    }
  }

  // ---------------------------------------------------------------- one call of decode

  function LengthError(header: string): string {
    "Failed to decode length '" + header + "': Failed to convert '" + header + "' to number"
  }

  /** What one `decode` call returns, and the decoder it leaves behind. */
  function DecodeChunk(numify: Numify, st: DecoderState, data: string): (r: (DecoderState, Try<seq<string>>))
    requires st.Valid()
    ensures r.0.Valid()
    ensures r.1.Error? <==> r.0.phase == Failed
  {
    if st.phase == Failed then (st, Error("Decoder is in a FAILED state"))
    else
      var fed := Feed(numify, st, data);
      (fed.state,
       if fed.state.phase == Failed then Error(LengthError(fed.state.buffer)) else Success(fed.records))
  }

  class Decoder {
    const numify: Numify
    var phase: Phase
    var buffer: string
    var length: Option<nat>

    ghost function View(): DecoderState
      reads this
    {
      DecoderState(phase, buffer, length)
    }

    ghost predicate Valid()
      reads this
    {
      View().Valid()
    }

    constructor (numify: Numify)
      ensures Valid() && View() == INITIAL && this.numify == numify
    {
      this.numify := numify;
      phase, buffer, length := Header, "", None;
    }

    method Decode(data: string) returns (result: Try<seq<string>>)
      requires Valid()
      modifies this
      ensures Valid()
      ensures (View(), result) == DecodeChunk(numify, old(View()), data)
    {
      if phase == Failed {
        return Error("Decoder is in a FAILED state");
      }
      var records := [];
      for i := 0 to |data|
        invariant Valid() && phase != Failed
        invariant Feed(numify, old(View()), data[..i]) == Fed(View(), records)
      {
        FeedOne(numify, old(View()), data, i);
        var c := data[i];
        if phase == Header {
          if c != '\n' {
            buffer := buffer + [c];
            continue;
          }
          var parsed := numify(buffer);
          if parsed.None? {
            phase := Failed;
            assert data == data[..i + 1] + data[i + 1..];
            FeedAppend(numify, old(View()), data[..i + 1], data[i + 1..]);
            FeedFailed(numify, View(), data[i + 1..]);
            return Error(LengthError(buffer));
          }
          length := parsed;
          buffer := "";
          phase := Record;
          if parsed.value <= 0 {
            records := records + [buffer];
            phase := Header;
          }
        } else if phase == Record {
          assert length.Some?;
          assert |buffer| < length.value;
          buffer := buffer + [c];
          if |buffer| == length.value {
            records := records + [buffer];
            buffer := "";
            phase := Header;
          }
        }
      }
      assert data[..|data|] == data;
      return Success(records);
    }
  }

  // ---------------------------------------------------------------- round trip

  lemma {:induction false} FeedHeaderBytes(numify: Numify, st: DecoderState, header: string)
    requires st.phase == Header && '\n' !in header
    ensures Feed(numify, st, header) == Fed(st.(buffer := st.buffer + header), [])
    decreases header
  {
    if header == "" {
      assert st.buffer + header == st.buffer;
    } else {
      var st' := st.(buffer := st.buffer + [header[0]]);
      FeedHeaderBytes(numify, st', header[1..]);
      assert st'.buffer + header[1..] == st.buffer + header;
    }
  }

  lemma {:induction false} FeedRecordBytes(numify: Numify, st: DecoderState, data: string)
    requires st.phase == Record && st.Valid() && data != ""
    requires |st.buffer| + |data| == st.length.value
    ensures Feed(numify, st, data) == Fed(DecoderState(Header, "", st.length), [st.buffer + data])
    decreases data
  {
    if |data| > 1 {
      var st' := st.(buffer := st.buffer + [data[0]]);
      FeedRecordBytes(numify, st', data[1..]);
      assert st'.buffer + data[1..] == st.buffer + data;
    } else {
      assert data == [data[0]] && data[1..] == "";
    }
  }

  /** A header the decoder accepts, followed by that many bytes, is decoded as those bytes. */
  lemma {:induction false} FeedFrame(numify: Numify, st: DecoderState, header: string, record: string)
    requires st.phase == Header && st.buffer == "" && '\n' !in header
    requires numify(header) == Some(|record|)
    ensures Feed(numify, st, header + "\n" + record) == Fed(DecoderState(Header, "", Some(|record|)), [record])
  {
    FeedHeaderBytes(numify, st, header);
    var atNewline := st.(buffer := st.buffer + header);
    assert atNewline.buffer == header;
    var afterNewline := DecodeByte(numify, atNewline, '\n');
    assert Feed(numify, atNewline, "\n") == Fed(afterNewline.state, afterNewline.records + []);
    FeedAppend(numify, st, header, "\n");
    FeedAppend(numify, st, header + "\n", record);
    if record != "" {
      FeedRecordBytes(numify, afterNewline.state, record);
      assert "" + record == record;
    }
  }

  /** Records laid out one after the other, each behind its own header. */
  function Frames(headers: seq<string>, records: seq<string>): string
    requires |headers| == |records|
  {
    if headers == [] then "" else headers[0] + "\n" + records[0] + Frames(headers[1..], records[1..])
  }

  ghost predicate Announces(numify: Numify, headers: seq<string>, records: seq<string>) {
    && |headers| == |records|
    && forall i | 0 <= i < |headers| :: '\n' !in headers[i] && numify(headers[i]) == Some(|records[i]|)
  }

  lemma {:induction false} FeedFrames(numify: Numify, st: DecoderState, headers: seq<string>, records: seq<string>)
    requires st.phase == Header && st.buffer == "" && Announces(numify, headers, records)
    ensures
      var fed := Feed(numify, st, Frames(headers, records));
      fed.records == records && fed.state.phase == Header && fed.state.buffer == ""
    decreases headers
  {
    if headers != [] {
      var h, r := headers[0], records[0];
      FeedFrame(numify, st, h, r);
      FeedAppend(numify, st, h + "\n" + r, Frames(headers[1..], records[1..]));
      FeedFrames(numify, DecoderState(Header, "", Some(|r|)), headers[1..], records[1..]);
      assert records == [r] + records[1..];
    }
  }

  lemma {:induction false} EncodedIsFramed(numify: Numify, records: seq<string>) returns (headers: seq<string>)
    requires InvertsDecimal(numify)
    requires forall r | r in records :: |r| < SIZE_LIMIT
    ensures Announces(numify, headers, records) && EncodeAll(records) == Frames(headers, records)
    decreases records
  {
    if records == [] {
      return [];
    }
    var rest := EncodedIsFramed(numify, records[1..]);
    headers := [Decimal(|records[0]|)] + rest;
    assert headers[1..] == rest;
  }

  // ---------------------------------------------------------------- streams of chunks

  /** The records a caller is given, and the error that ends the stream if there is one. */
  datatype Stream = Stream(records: seq<string>, error: Option<string>)

  /** Decoding chunk after chunk until the first error, as the reader does. */
  function DecodeStream(numify: Numify, st: DecoderState, chunks: seq<string>): Stream
    requires st.Valid()
    decreases chunks
  {
    if chunks == [] then Stream([], None)
    else
      match DecodeChunk(numify, st, chunks[0])
      case (st', Success(records)) =>
        var rest := DecodeStream(numify, st', chunks[1..]);
        Stream(records + rest.records, rest.error)
      case (_, Error(message)) => Stream([], Some(message))
  }

  /** The records completed in the chunk that holds the first bad header, before that header. */
  function CompletedInBadChunk(numify: Numify, st: DecoderState, chunks: seq<string>): seq<string>
    requires st.Valid()
    decreases chunks
  {
    if chunks == [] then []
    else
      var fed := Feed(numify, st, chunks[0]);
      if fed.state.phase == Failed then fed.records
      else CompletedInBadChunk(numify, fed.state, chunks[1..])
  }

  /**
   Conservation: the records framed in the bytes are those given to the caller followed by
   those completed in the bad chunk.
   */
  lemma {:induction false} DeliveredThenLost(numify: Numify, st: DecoderState, chunks: seq<string>)
    requires st.Valid() && st.phase != Failed
    ensures Feed(numify, st, Flatten(chunks)).records
         == DecodeStream(numify, st, chunks).records + CompletedInBadChunk(numify, st, chunks)
    decreases chunks
  {
    if chunks != [] {
      var fed := Feed(numify, st, chunks[0]);
      FeedAppend(numify, st, chunks[0], Flatten(chunks[1..]));
      if fed.state.phase == Failed {
        FeedFailed(numify, fed.state, Flatten(chunks[1..]));
      } else {
        DeliveredThenLost(numify, fed.state, chunks[1..]);
      }
    }
  }

  /** The stream errs exactly when its bytes hold a bad header, wherever they are cut. */
  lemma {:induction false} StreamErrsExactly(numify: Numify, st: DecoderState, chunks: seq<string>)
    requires st.Valid() && st.phase != Failed
    ensures DecodeStream(numify, st, chunks).error.Some?
       <==> Feed(numify, st, Flatten(chunks)).state.phase == Failed
    decreases chunks
  {
    if chunks != [] {
      var fed := Feed(numify, st, chunks[0]);
      FeedAppend(numify, st, chunks[0], Flatten(chunks[1..]));
      if fed.state.phase == Failed {
        FeedFailed(numify, fed.state, Flatten(chunks[1..]));
      } else {
        StreamErrsExactly(numify, fed.state, chunks[1..]);
      }
    }
  }

  /**
   How the bytes are cut into chunks matters exactly when some record is completed
   in the same chunk as the bad header: then, and only then, a framed record is not delivered.
   */
  lemma ChunkingMattersExactly(numify: Numify, chunks: seq<string>)
    ensures DecodeStream(numify, INITIAL, chunks).records == Feed(numify, INITIAL, Flatten(chunks)).records
       <==> CompletedInBadChunk(numify, INITIAL, chunks) == []
  {
    DeliveredThenLost(numify, INITIAL, chunks);
  }

  lemma {:induction false} FeedBadHeader(st: DecoderState)
    requires st.phase == Header && st.buffer == ""
    ensures Feed(ParseDecimal, st, "x\n") == Fed(st.(phase := Failed, buffer := "x"), [])
  {
    FeedSingle(ParseDecimal, st, 'x');
    FeedSingle(ParseDecimal, st.(buffer := "x"), '\n');
    assert ParseDecimal("x") == None;
    FeedAppend(ParseDecimal, st, "x", "\n");
    assert "x" + "\n" == "x\n";
  }

  lemma {:induction false} FeedGoodRecord()
    ensures Feed(ParseDecimal, INITIAL, "1\na") == Fed(DecoderState(Header, "", Some(1)), ["a"])
  {
    assert ParseDecimal("1") == Some(1);
    FeedFrame(ParseDecimal, INITIAL, "1", "a");
    assert "1" + "\n" + "a" == "1\na";
  }

  lemma {:induction false} FlattenTwo(a: string, b: string)
    ensures Flatten([a, b]) == Flatten([a + b]) == a + b
  {
    assert [a, b][1..] == [b];
    assert Flatten([b]) == b + Flatten([]);
    assert Flatten([a + b]) == (a + b) + Flatten([]);
  }

  lemma {:induction false} StreamOfOne(a: string)
    requires Feed(ParseDecimal, INITIAL, a).state.phase == Failed
    ensures DecodeStream(ParseDecimal, INITIAL, [a]).records == []
  {
  }

  lemma {:induction false} StreamOfTwo(a: string, b: string)
    requires
      var fed := Feed(ParseDecimal, INITIAL, a);
      fed.state.phase != Failed && Feed(ParseDecimal, fed.state, b).state.phase == Failed
    ensures DecodeStream(ParseDecimal, INITIAL, [a, b]).records == Feed(ParseDecimal, INITIAL, a).records
  {
    assert [a, b][1..] == [b];
  }

  /** The same bytes, cut in two ways: one chunk loses the record that two chunks deliver. */
  lemma RecordLostWithBadHeader()
    ensures Flatten(["1\na", "x\n"]) == Flatten(["1\nax\n"])
    ensures DecodeStream(ParseDecimal, INITIAL, ["1\na", "x\n"]).records == ["a"]
    ensures DecodeStream(ParseDecimal, INITIAL, ["1\nax\n"]).records == []
  {
    var one, two := "1\na", "x\n";
    FeedGoodRecord();
    FeedBadHeader(DecoderState(Header, "", Some(1)));
    FeedAppend(ParseDecimal, INITIAL, one, two);
    FlattenTwo(one, two);
    assert one + two == "1\nax\n";
    StreamOfOne(one + two);
    StreamOfTwo(one, two);
  }

  /** However the encoding of some records is cut into chunks, decoding gives the records back. */
  lemma ChunkedRoundTrip(numify: Numify, records: seq<string>, chunks: seq<string>)
    requires InvertsDecimal(numify)
    requires forall r | r in records :: |r| < SIZE_LIMIT
    requires Flatten(chunks) == EncodeAll(records)
    ensures DecodeStream(numify, INITIAL, chunks) == Stream(records, None)
  {
    var headers := EncodedIsFramed(numify, records);
    FeedFrames(numify, INITIAL, headers, records);
    DeliveredThenLost(numify, INITIAL, chunks);
    StreamErrsExactly(numify, INITIAL, chunks);
    NothingLost(numify, INITIAL, chunks);
  }

  lemma {:induction false} NothingLost(numify: Numify, st: DecoderState, chunks: seq<string>)
    requires st.Valid() && st.phase != Failed
    requires Feed(numify, st, Flatten(chunks)).state.phase != Failed
    ensures CompletedInBadChunk(numify, st, chunks) == []
    decreases chunks
  {
    if chunks != [] {
      var fed := Feed(numify, st, chunks[0]);
      FeedAppend(numify, st, chunks[0], Flatten(chunks[1..]));
      if fed.state.phase == Failed {
        FeedFailed(numify, fed.state, Flatten(chunks[1..]));
      } else {
        NothingLost(numify, fed.state, chunks[1..]);
      }
    }
  }

  // ---------------------------------------------------------------- the decoder accepts framed streams only

  /** The bytes a decoder has taken in since the last completed record. */
  function Unfinished(st: DecoderState, header: string): string {
    if st.phase == Record then header + "\n" + st.buffer else st.buffer
  }

  ghost predicate Remembers(numify: Numify, st: DecoderState, header: string) {
    && st.phase != Failed && st.Valid()
    && (st.phase == Header ==> '\n' !in st.buffer)
    && (st.phase == Record ==> '\n' !in header && numify(header) == st.length)
  }

  /** The header of the frame being read once a byte has been taken in. */
  function HeaderAfter(st: DecoderState, header: string): string {
    if st.phase == Header then st.buffer else header
  }

  lemma ByteIsKept(numify: Numify, st: DecoderState, header: string, c: char)
    requires Remembers(numify, st, header)
    requires DecodeByte(numify, st, c).state.phase != Failed
    ensures
      var step := DecodeByte(numify, st, c);
      var h := HeaderAfter(st, header);
      && Remembers(numify, step.state, h)
      && if step.records == [] then Unfinished(st, header) + [c] == Unfinished(step.state, h)
         else && |step.records| == 1 && step.state.phase == Header && step.state.buffer == ""
              && '\n' !in h && numify(h) == Some(|step.records[0]|)
              && Unfinished(st, header) + [c] == h + "\n" + step.records[0]
  {
  }

  /** The bytes fed so far are the completed frames, with these headers, and the unfinished one. */
  ghost predicate Accounted(numify: Numify, st: DecoderState, header: string, data: string,
                            headers: seq<string>, header': string)
    requires st.Valid()
  {
    var fed := Feed(numify, st, data);
    && Remembers(numify, fed.state, header')
    && Announces(numify, headers, fed.records)
    && Unfinished(st, header) + data == Frames(headers, fed.records) + Unfinished(fed.state, header')
  }

  lemma {:induction false} FeedFirst(numify: Numify, st: DecoderState, data: string)
    requires st.Valid() && data != "" && DecodeByte(numify, st, data[0]).records == []
    ensures Feed(numify, st, data) == Feed(numify, DecodeByte(numify, st, data[0]).state, data[1..])
  {
    var rest := Feed(numify, DecodeByte(numify, st, data[0]).state, data[1..]);
    assert [] + rest.records == rest.records;
  }

  lemma TakeFirst(seen: string, data: string, seen': string)
    requires data != "" && seen + [data[0]] == seen'
    ensures seen + data == seen' + data[1..]
  {
    assert data == [data[0]] + data[1..];
  }

  lemma {:induction false} ByteWithinFrame(numify: Numify, st: DecoderState, header: string, data: string,
                        headers: seq<string>, header': string)
    requires data != "" && Remembers(numify, st, header)
    requires DecodeByte(numify, st, data[0]).state.phase != Failed
    requires DecodeByte(numify, st, data[0]).records == []
    requires Accounted(numify, DecodeByte(numify, st, data[0]).state, HeaderAfter(st, header), data[1..], headers, header')
    ensures Accounted(numify, st, header, data, headers, header')
  {
    ByteIsKept(numify, st, header, data[0]);
    var step := DecodeByte(numify, st, data[0]);
    FeedFirst(numify, st, data);
    TakeFirst(Unfinished(st, header), data, Unfinished(step.state, HeaderAfter(st, header)));
  }

  lemma FrameFirst(numify: Numify, header: string, record: string, headers: seq<string>, records: seq<string>)
    requires '\n' !in header && numify(header) == Some(|record|)
    requires Announces(numify, headers, records)
    ensures Announces(numify, [header] + headers, [record] + records)
    ensures Frames([header] + headers, [record] + records) == header + "\n" + record + Frames(headers, records)
  {
    assert ([header] + headers)[1..] == headers && ([record] + records)[1..] == records;
  }

  lemma Splice(seen: string, data: string, frame: string, frames: string, unfinished: string)
    requires data != "" && seen + [data[0]] == frame && data[1..] == frames + unfinished
    ensures seen + data == frame + frames + unfinished
  {
    assert data == [data[0]] + data[1..];
  }

  lemma {:induction false} ByteEndsFrame(numify: Numify, st: DecoderState, header: string, data: string,
                      headers: seq<string>, header': string)
    requires data != "" && Remembers(numify, st, header)
    requires DecodeByte(numify, st, data[0]).state.phase != Failed
    requires DecodeByte(numify, st, data[0]).records != []
    requires Accounted(numify, DecodeByte(numify, st, data[0]).state, HeaderAfter(st, header), data[1..], headers, header')
    ensures Accounted(numify, st, header, data, [HeaderAfter(st, header)] + headers, header')
  {
    ByteIsKept(numify, st, header, data[0]);
    var step := DecodeByte(numify, st, data[0]);
    var rest := Feed(numify, step.state, data[1..]);
    var h, r := HeaderAfter(st, header), step.records[0];
    FrameFirst(numify, h, r, headers, rest.records);
    var fed := Feed(numify, st, data);
    assert fed.state == rest.state && fed.records == [r] + rest.records;
    assert Unfinished(step.state, h) + data[1..] == data[1..];
    Splice(Unfinished(st, header), data, h + "\n" + r, Frames(headers, rest.records), Unfinished(rest.state, header'));
  }

  /**
   Every byte a decoder that has not failed was fed belongs to a frame it completed or to
   the unfinished one: no byte is dropped, and each header announces its record's length.
   */
  lemma {:induction false} FedBytesAreFrames(numify: Numify, st: DecoderState, header: string, data: string)
      returns (headers: seq<string>, header': string)
    requires Remembers(numify, st, header)
    requires Feed(numify, st, data).state.phase != Failed
    ensures Accounted(numify, st, header, data, headers, header')
    decreases data
  {
    if data == "" {
      return [], header;
    }
    var step := DecodeByte(numify, st, data[0]);
    if step.state.phase == Failed {
      FeedFailed(numify, step.state, data[1..]);
    }
    ByteIsKept(numify, st, header, data[0]);
    headers, header' := FedBytesAreFrames(numify, step.state, HeaderAfter(st, header), data[1..]);
    if step.records == [] {
      ByteWithinFrame(numify, st, header, data, headers, header');
    } else {
      ByteEndsFrame(numify, st, header, data, headers, header');
      headers := [HeaderAfter(st, header)] + headers;
    }
  }

  /** A byte stream leaves the decoder between records exactly when it is a sequence of frames. */
  lemma CleanExactlyWhenFramed(numify: Numify, data: string)
    ensures
      var st := Feed(numify, INITIAL, data).state;
      (st.phase == Header && st.buffer == "") <==>
      exists headers, records :: Announces(numify, headers, records) && data == Frames(headers, records)
  {
    var fed := Feed(numify, INITIAL, data);
    if fed.state.phase == Header && fed.state.buffer == "" {
      var headers, header' := FedBytesAreFrames(numify, INITIAL, "", data);
      assert "" + data == data && Frames(headers, fed.records) + "" == Frames(headers, fed.records);
    }
    forall headers, records | Announces(numify, headers, records) && data == Frames(headers, records)
      ensures fed.state.phase == Header && fed.state.buffer == ""
    {
      FeedFrames(numify, INITIAL, headers, records);
    }
  }
}
