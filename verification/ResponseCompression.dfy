/**
 The response writer that decides late whether to compress: small bodies are held back in a buffer,
 and the first decision commits the headers. The encoder is any incremental codec whose closed output
 decodes to what was written into it.
 */
module ResponseCompression {
  import opened Common

  // The encoder.

  datatype EncoderOp = Data(bytes: Bytes) | Sync | Close

  /** All output of an encoder after a sequence of calls. */
  type Codec = seq<EncoderOp> -> Bytes

  type Decoder = Bytes -> Option<Bytes>

  function Payload(ops: seq<EncoderOp>): Bytes {
    if ops == [] then []
    else Payload(ops[..|ops| - 1]) + if ops[|ops| - 1].Data? then ops[|ops| - 1].bytes else []
  }

  predicate Open(ops: seq<EncoderOp>) {
    forall i :: 0 <= i < |ops| ==> ops[i] != Close
  }

  ghost predicate Grows(encode: Codec, ops: seq<EncoderOp>, op: EncoderOp) {
    Open(ops) ==> encode(ops) <= encode(ops + [op])
  }

  ghost predicate Decodes(encode: Codec, decode: Decoder, ops: seq<EncoderOp>) {
    Open(ops) ==> decode(encode(ops + [Close])) == Some(Payload(ops))
  }

  /** What a client can read of a response that has not ended yet. */
  type StreamDecoder = Bytes -> Bytes

  ghost predicate Syncs(encode: Codec, shown: StreamDecoder, ops: seq<EncoderOp>) {
    Open(ops) ==> shown(encode(ops + [Sync])) == Payload(ops)
  }

  /**
   Until it is closed output is never taken back, after a sync all that was written can be read, and
   once closed the output decodes to just that.
   */
  ghost predicate Faithful(encode: Codec, decode: Decoder, shown: StreamDecoder) {
    && encode([]) == []
    && (forall ops: seq<EncoderOp>, op: EncoderOp :: Grows(encode, ops, op))
    && (forall ops: seq<EncoderOp> :: Syncs(encode, shown, ops))
    && (forall ops: seq<EncoderOp> :: Decodes(encode, decode, ops))
  }

  lemma PayloadAfter(ops: seq<EncoderOp>, op: EncoderOp)
    ensures Payload(ops + [op]) == Payload(ops) + if op.Data? then op.bytes else []
  {
    assert (ops + [op])[..|ops|] == ops;
  }

  /** The laws can be met: the encoder that passes everything through meets them. */
  lemma PassThroughIsFaithful()
    ensures Faithful(Payload, output => Some(output), output => output)
  {
    forall ops: seq<EncoderOp>, op: EncoderOp ensures Payload(ops) <= Payload(ops + [op]) {
      PayloadAfter(ops, op);
    }
    forall ops: seq<EncoderOp> ensures Payload(ops + [Sync]) == Payload(ops) == Payload(ops + [Close]) {
      PayloadAfter(ops, Sync);
      PayloadAfter(ops, Close);
      assert Payload(ops) + [] == Payload(ops);
    }
    var decode: Decoder := output => Some(output);
    var shown: StreamDecoder := output => output;
    forall ops: seq<EncoderOp> ensures Syncs(Payload, shown, ops) && Decodes(Payload, decode, ops) {
      assert Payload(ops + [Sync]) == Payload(ops) == Payload(ops + [Close]);
    }
  }

  // The writer below.

  /** The header fields that have to agree with the body: its encoding, and its length if that is stated. */
  datatype Fields = Fields(encoding: string, length: Option<int>)

  const NO_FIELDS := Fields("", None)

  /** Commits headers with the first byte; any write may fail part of the way, and so may a flush. */
  class ResponseWriter {
    var body: Bytes
    var delivered: Bytes                // the part of the body that is known to have been pushed out
    var committed: bool
    var fields: Fields                  // may change until they are committed
    var sent: Fields
    var lost: bool                      // some write has failed
    var stalled: bool                   // some flush has failed

    constructor ()
      ensures body == [] && delivered == [] && !committed && fields == NO_FIELDS && !lost && !stalled
    {
      body, delivered, committed, fields, sent, lost, stalled := [], [], false, NO_FIELDS, NO_FIELDS, false, false;
    }

    method WriteHeaderNow()
      modifies this`committed, this`sent
      ensures committed && sent == if old(committed) then old(sent) else fields
    {
      if !committed {
        committed, sent := true, fields;
      }
    }

    method Write(data: Bytes) returns (n: nat, failed: bool)
      modifies this`body, this`committed, this`sent, this`lost
      ensures n <= |data| && (!failed ==> n == |data|) && body == old(body) + data[..n]
      ensures committed && sent == if old(committed) then old(sent) else fields
      ensures lost <==> old(lost) || failed
    {
      WriteHeaderNow();
      failed := *;
      n := |data|;
      if failed {
        var some: nat :| some <= |data|;
        n := some;
      }
      body := body + data[..n];
      lost := lost || failed;
    }

    method Flush() returns (failed: bool)
      modifies this`delivered, this`committed, this`sent, this`stalled
      ensures committed && sent == if old(committed) then old(sent) else fields
      ensures !failed ==> delivered == body
      ensures stalled <==> old(stalled) || failed
    {
      WriteHeaderNow();
      failed := *;
      if !failed {
        delivered := body;
      }
      stalled := stalled || failed;
    }
  }

  // The writer that compresses.

  /** The status and the type of the content. */
  datatype Head = Head(status: int, mediaType: string)

  predicate HasPrefix(s: string, p: string) {
    p <= s
  }

  predicate HasSuffix(s: string, p: string) {
    |p| <= |s| && s[|s| - |p|..] == p
  }

  predicate Compressible(mediaType: string) {
    || HasPrefix(mediaType, "text/") || mediaType == "application/json"
    || (HasPrefix(mediaType, "application/") && HasSuffix(mediaType, "+json"))
    || mediaType == "application/javascript" || mediaType == "image/svg+xml"
  }

  datatype Verdict = AsIs | Hold | Compress

  /** The decision as a function of everything it depends on. */
  function Judge(head: Head, committed: bool, fields: Fields, minBytes: int, size: nat, force: bool): Verdict {
    if committed || head.status < 200 || head.status == 204 || head.status == 304 || head.status == 206
       || fields.encoding != "" || !Compressible(head.mediaType) then AsIs
    else if head.mediaType == "text/event-stream" then Compress
    else if fields.length.Some? && 0 <= fields.length.value < minBytes then AsIs
    else if size < minBytes then if force then AsIs else Hold
    else Compress
  }

  /** The type of the content is guessed from the data of a write if nothing says it. */
  function Typed(head: Head, data: Bytes, detect: Bytes -> string): Head {
    if head.mediaType == "" && |data| > 0 then head.(mediaType := detect(data)) else head
  }

  // Which responses are compressed.

  predicate TypeWorthIt(mediaType: string) {
    || mediaType in ["application/json", "application/javascript", "image/svg+xml"]
    || "text/" <= mediaType
    || ("application/" <= mediaType && exists k :: 0 <= k <= |mediaType| && mediaType[k..] == "+json")
  }

  lemma CompressibleTypes(mediaType: string)
    ensures Compressible(mediaType) <==> TypeWorthIt(mediaType)
  {
  }

  /** A full response in no other encoding, of a type worth it, and not stated to be short. */
  predicate Eligible(head: Head, fields: Fields, minBytes: int) {
    && head.status >= 200 && head.status !in {204, 206, 304}
    && fields.encoding == "" && TypeWorthIt(head.mediaType)
    && (head.mediaType == "text/event-stream" || fields.length.None? || fields.length.value < 0 || fields.length.value >= minBytes)
  }

  predicate LongEnough(head: Head, minBytes: int, total: nat) {
    head.mediaType == "text/event-stream" || total >= minBytes
  }

  lemma JudgedExactly(head: Head, fields: Fields, minBytes: int, size: nat, force: bool)
    ensures Judge(head, false, fields, minBytes, size, force)
            == if !Eligible(head, fields, minBytes) then AsIs
               else if LongEnough(head, minBytes, size) then Compress else if force then AsIs else Hold
  {
    CompressibleTypes(head.mediaType);
  }

  /** What a handler may do with its writer, in any order. */
  datatype Request = Header(head: Head, fields: Fields) | Status(code: int) | HeaderNow | Body(data: Bytes) | Flush

  function DataOf(call: Request): Bytes {
    if call.Body? then call.data else []
  }

  /** All data a handler tries to send. */
  function Sent(calls: seq<Request>): Bytes {
    if calls == [] then [] else Sent(calls[..|calls| - 1]) + DataOf(calls[|calls| - 1])
  }

  lemma Regroup(a: Bytes, b: Bytes, c: Bytes)
    ensures a + b + c == a + (b + c)
  {
  }

  lemma {:induction false} SentLast(calls: seq<Request>, before: Bytes)
    requires calls != []
    ensures before + Sent(calls[..|calls| - 1]) + DataOf(calls[|calls| - 1]) == before + Sent(calls)
  {
    assert Sent(calls) == Sent(calls[..|calls| - 1]) + DataOf(calls[|calls| - 1]);
    Regroup(before, Sent(calls[..|calls| - 1]), DataOf(calls[|calls| - 1]));
  }

  class CompressionWriter {
    const encoding: string
    const minBytes: int
    const encode: Codec
    const decode: Decoder
    const shown: StreamDecoder
    const detect: Bytes -> string
    const pooled: bool                      // an encoder can be had
    const out: ResponseWriter
    var head: Head
    var buffer: Bytes
    var encoder: Option<seq<EncoderOp>>     // calls made to the encoder, while there is one
    var decided: bool
    var writeErr: bool
    var written: bool
    var size: nat
    ghost var accepted: Bytes               // all data that a write has reported as taken
    ghost var compressed: bool              // the decision was to compress
    ghost var ops: seq<EncoderOp>           // all calls ever made to the encoder
    ghost var given: Fields                 // what the handler has set, as long as that had an effect

    /** Nothing has been sent and everything taken is in the buffer, which is small. */
    ghost predicate Undecided()
      reads this, out
    {
      && out.body == [] && !out.committed && encoder.None? && !compressed && !writeErr
      && accepted == buffer && (buffer != [] ==> |buffer| < minBytes)
    }

    /** The encoder has been closed. */
    ghost predicate Closed()
      reads this
    {
      compressed && encoder.None?
    }

    /** The body is the encoder's output and nothing else; once that is closed it decodes to all data taken. */
    ghost predicate SendsCompressed()
      reads this, out
    {
      && out.committed && out.body <= encode(ops)
      && (encoder.Some? ==> encoder.value == ops && Open(ops))
      && (encoder.Some? && !out.lost ==> out.body == encode(ops) && Payload(ops) + buffer == accepted)
      && (encoder.None? && !out.lost ==> decode(out.body) == Some(accepted))
    }

    /** The body is all data taken, or after a failed write the beginning of it. */
    ghost predicate SendsPlain()
      reads this, out
    {
      && encoder.None? && out.body <= accepted && (out.body != [] ==> out.committed)
      && (!out.lost ==> out.body + buffer == accepted)
    }

    /** The fields sent are the handler's own, or if it named no encoding that of the encoder and no length. */
    ghost predicate Labelled()
      reads this, out
    {
      if compressed then given.encoding == "" && out.committed && out.sent == Fields(encoding, None)
      else if out.committed then out.sent == given else out.fields == given
    }

    /** An error is remembered exactly if something has failed, or the encoder has been closed. */
    ghost predicate ErrorExplained()
      reads this, out
    {
      writeErr <==> out.lost || out.stalled || Closed()
    }

    ghost predicate Basics()
      reads this, out
    {
      && Faithful(encode, decode, shown) && encoding != "" && size == |accepted|
      && Labelled() && ErrorExplained()
    }

    /** Decided, with the buffer possibly still to be sent. */
    ghost predicate Ready()
      reads this, out
    {
      && Basics() && decided && (writeErr ==> buffer == [])
      && if compressed then SendsCompressed() else SendsPlain()
    }

    ghost predicate Valid()
      reads this, out
    {
      && Basics()
      && if decided then Ready() && buffer == [] else Undecided()
    }

    /** The body is all data taken, in the encoding that was sent. */
    ghost predicate Complete()
      reads this, out
    {
      if compressed then out.sent == Fields(encoding, None) && given.encoding == "" && decode(out.body) == Some(accepted)
      else (out.committed ==> out.sent == given) && out.body == accepted
    }

    /** A client that reads along has seen all data taken so far. */
    ghost predicate Visible()
      reads this, out
    {
      if compressed then out.sent == Fields(encoding, None) && shown(out.delivered) == accepted
      else out.sent == given && out.delivered == accepted
    }

    constructor (encoding: string, minBytes: int, encode: Codec, decode: Decoder, shown: StreamDecoder,
                 detect: Bytes -> string, pooled: bool, out: ResponseWriter, head: Head)
      requires Faithful(encode, decode, shown) && encoding != ""
      requires out.body == [] && !out.committed && !out.lost && !out.stalled
      ensures Valid() && !decided && accepted == [] && !compressed && this.out == out && given == out.fields
      ensures this.encoding == encoding && this.minBytes == minBytes && this.pooled == pooled && this.head == head
      ensures this.encode == encode && this.decode == decode && this.shown == shown
    {
      this.encoding, this.minBytes, this.encode, this.decode, this.shown := encoding, minBytes, encode, decode, shown;
      this.detect, this.pooled, this.out, this.head := detect, pooled, out, head;
      buffer, encoder, decided, writeErr, written, size := [], None, false, false, false, 0;
      accepted, compressed, ops, given := [], false, [], out.fields;
    }

    /** Handlers set status and headers whenever they like; after the headers are committed to no effect. */
    method SetHead(head: Head, fields: Fields)
      requires Valid()
      modifies this`head, this`given, out`fields
      ensures Valid() && this.head == head && out.fields == fields
      ensures given == if out.committed then old(given) else fields
    {
      this.head := head;
      out.fields := fields;
      if !out.committed {
        given := fields;
      }
    }

    method WriteHeader(code: int)
      requires Valid()
      modifies this`head
      ensures Valid() && head == if old(written || out.committed) then old(head) else old(head).(status := code)
    {
      if !(written || out.committed) {
        head := head.(status := code);
      }
    }

    /** Nothing has been sent, so the headers can still say that the body is compressed. */
    method StartEncoder()
      requires Valid() && !decided && pooled && out.fields.encoding == ""
      modifies this`decided, this`encoder, this`compressed, this`ops, out`fields, out`committed, out`sent
      ensures Ready() && compressed && encoder == Some([])
    {
      decided, encoder := true, Some([]);
      compressed, ops := true, [];
      out.fields := Fields(encoding, None);
      out.WriteHeaderNow();
      assert Payload([]) == [];
    }

    /** Commits the headers at once if it is to compress; sends nothing of the body. */
    method Decide(force: bool, total: nat)
      requires Valid()
      modifies this`decided, this`encoder, this`compressed, this`ops
      modifies out`fields, out`committed, out`sent
      ensures if decided then Ready() else Valid() && !force && total < minBytes
      ensures old(decided) ==> decided && encoder == old(encoder) && ops == old(ops) && compressed == old(compressed)
      ensures !old(decided) ==>
                var verdict := old(Judge(head, out.committed, out.fields, minBytes, total, force));
                (decided <==> verdict != Hold) && (compressed <==> verdict == Compress && pooled)
      ensures old(decided) || !compressed ==> out.fields == old(out.fields) && out.committed == old(out.committed)
    {
      if decided {
        return;
      }
      var verdict := Judge(head, out.committed, out.fields, minBytes, total, force);
      if verdict == Hold {
        return;
      }
      if verdict == Compress && pooled {
        StartEncoder();
      } else {
        decided := true;
      }
    }

    /** An encoder writes what a call adds to its output; once a write has failed it writes no more. */
    method Call(op: EncoderOp) returns (err: bool)
      requires Ready() && compressed && encoder.Some?
      modifies this`encoder, this`ops, out`body, out`committed, out`sent, out`lost
      ensures out.committed && out.sent == Fields(encoding, None) && out.body <= encode(ops)
      ensures ops == old(ops) + [op] && encoder == Some(ops)
      ensures out.lost <==> old(out.lost) || err
      ensures !out.lost ==> out.body == encode(ops)
      ensures old(out.lost) ==> out.body == old(out.body)
    {
      ghost var before := ops;
      assert Grows(encode, ops, op);
      ops := ops + [op];
      var made := encode(encoder.value + [op])[|encode(encoder.value)|..];
      encoder := Some(encoder.value + [op]);
      if out.lost {
        return true;
      }
      var n;
      n, err := out.Write(made);
      assert encode(ops) == encode(before) + made;
    }

    method DrainEncoded() returns (err: bool)
      requires Ready() && !writeErr && compressed
      modifies this`encoder, this`ops, this`writeErr, this`buffer, out`body, out`committed, out`sent, out`lost
      ensures Valid() && encoder.Some? && (err <==> writeErr) && (err ==> out.lost)
    {
      ghost var before := ops;
      err := Call(Data(buffer));
      PayloadAfter(before, Data(buffer));
      writeErr, buffer := err, [];
    }

    method DrainPlain() returns (err: bool)
      requires Ready() && !writeErr && !compressed
      modifies this`writeErr, this`buffer, out`body, out`committed, out`sent, out`lost
      ensures Valid() && (err <==> writeErr) && (err ==> out.lost)
    {
      var n;
      n, err := out.Write(buffer);
      writeErr, buffer := err, [];
    }

    /** The buffer goes out the way that has been decided. */
    method Drain() returns (err: bool)
      requires Ready()
      modifies this`encoder, this`ops, this`writeErr, this`buffer, out`body, out`committed, out`sent, out`lost
      ensures Valid() && decided && (err <==> writeErr) && encoder.Some? == old(encoder.Some?)
      ensures old(writeErr) ==> writeErr
      ensures err && !old(writeErr) ==> out.lost
      ensures old(buffer) == [] ==> out.body == old(out.body) && ops == old(ops) && out.lost == old(out.lost)
    {
      if writeErr || |buffer| == 0 {
        return writeErr;
      }
      if encoder.Some? {
        err := DrainEncoded();
      } else {
        err := DrainPlain();
      }
    }

    /** Forces the decision and sends what was held back. */
    method Commit() returns (err: bool)
      requires Valid()
      modifies this`decided, this`encoder, this`compressed, this`ops, this`writeErr, this`buffer
      modifies out`fields, out`body, out`committed, out`sent, out`lost
      ensures Valid() && decided && (err <==> writeErr)
      ensures old(decided) ==> compressed == old(compressed) && encoder == old(encoder)
      ensures !old(decided) && compressed ==> encoder.Some?
      ensures !old(decided) ==>
                (compressed <==> pooled && old(Judge(head, out.committed, out.fields, minBytes, |buffer|, true)) == Compress)
      ensures err && !old(writeErr) ==> out.lost
      ensures old(writeErr) ==> err && out.body == old(out.body) && out.lost == old(out.lost)
    {
      Decide(true, |buffer|);
      err := Drain();
    }

    method CommitHeaders()
      requires Valid() && decided
      modifies out`committed, out`sent
      ensures Valid() && out.committed
    {
      out.WriteHeaderNow();
    }

    method MarkWritten()
      requires Valid()
      modifies this`written
      ensures Valid() && written
    {
      written := true;
    }

    method WriteHeaderNow()
      requires Valid()
      modifies this, out
      ensures Valid() && decided && out.committed && accepted == old(accepted) && given == old(given)
      ensures old(decided) ==> compressed == old(compressed) && encoder == old(encoder)
      ensures writeErr && !old(writeErr) ==> out.lost
      ensures old(writeErr) ==> writeErr && out.body == old(out.body) && out.lost == old(out.lost)
    {
      MarkWritten();
      var err := Commit();
      CommitHeaders();
    }

    /** Decides for a write of this size, with the type of the content guessed if nothing says it. */
    method DecideFor(data: Bytes)
      requires Valid() && !decided
      modifies this`head, this`decided, this`encoder, this`compressed, this`ops
      modifies out`fields, out`committed, out`sent
      ensures if decided then Ready() else Valid() && |buffer| + |data| < minBytes
      ensures !compressed ==> out.fields == old(out.fields)
      ensures head == Typed(old(head), data, detect)
      ensures var verdict := old(Judge(Typed(head, data, detect), out.committed, out.fields, minBytes, |buffer| + |data|, false));
              (decided <==> verdict != Hold) && (compressed <==> verdict == Compress && pooled)
    {
      if head.mediaType == "" && |data| > 0 {
        head := head.(mediaType := detect(data));
      }
      Decide(false, |buffer| + |data|);
    }

    /** Still undecided: the data is kept back. */
    method KeepBack(data: Bytes)
      requires Valid() && !decided && |buffer| + |data| < minBytes
      modifies this`buffer, this`accepted, this`size
      ensures Valid() && !decided && accepted == old(accepted) + data
    {
      buffer := buffer + data;
      accepted := accepted + data;
      size := size + |data|;
    }

    method EncodeData(data: Bytes) returns (n: nat, err: bool)
      requires Valid() && decided && !writeErr && compressed
      modifies this`encoder, this`ops, out`body, out`committed, out`sent, out`lost
      ensures out.committed && out.sent == Fields(encoding, None) && out.body <= encode(ops)
      ensures encoder == Some(ops) && Open(ops) && (out.lost <==> err)
      ensures !err ==> n == |data| && out.body == encode(ops) && Payload(ops) == accepted + data
      ensures n <= |data|
    {
      ghost var before := ops;
      err := Call(Data(data));
      PayloadAfter(before, Data(data));
      n := |data|;
      if err {
        var taken: nat :| taken <= |data|;
        n := taken;
      }
      assert Payload(before) + [] == Payload(before);
    }

    method Forward(data: Bytes) returns (n: nat, err: bool)
      requires Valid() && decided && !writeErr
      modifies this`encoder, this`ops, this`writeErr, this`accepted, this`size
      modifies out`body, out`committed, out`sent, out`lost
      ensures Valid() && n <= |data| && accepted == old(accepted) + data[..n]
      ensures (!err ==> n == |data|) && (err <==> writeErr) && (err <==> out.lost)
      ensures encoder.Some? == old(encoder.Some?)
    {
      if encoder.Some? {
        n, err := EncodeData(data);
      } else {
        n, err := out.Write(data);
      }
      writeErr := err;
      size := size + n;
      accepted := accepted + data[..n];
      assert !err ==> data[..n] == data;
    }

    /** Decided: what was kept back goes first. */
    method Send(data: Bytes) returns (n: nat, err: bool)
      requires Ready() && !writeErr
      modifies this`encoder, this`ops, this`writeErr, this`buffer, this`accepted, this`size
      modifies out`body, out`committed, out`sent, out`lost
      ensures Valid() && n <= |data| && accepted == old(accepted) + data[..n]
      ensures (!err ==> n == |data|) && (err <==> writeErr) && (err ==> out.lost)
      ensures encoder.Some? == old(encoder.Some?)
    {
      var drainErr := Drain();
      if drainErr {
        return 0, true;
      }
      n, err := Forward(data);
    }

    method WriteUndecided(data: Bytes) returns (n: nat, err: bool)
      requires Valid() && !decided
      modifies this, out
      ensures Valid() && n <= |data| && accepted == old(accepted) + data[..n] && given == old(given)
      ensures (!err ==> n == |data|) && (err <==> writeErr) && (err ==> out.lost)
      ensures var verdict := old(Judge(Typed(head, data, detect), out.committed, out.fields, minBytes, |buffer| + |data|, false));
              && (decided <==> verdict != Hold) && (compressed <==> verdict == Compress && pooled)
              && (!decided ==> !err && head == Typed(old(head), data, detect) && out.fields == old(out.fields))
    {
      DecideFor(data);
      if !decided {
        KeepBack(data);
        return |data|, false;
      }
      n, err := Send(data);
    }

    /** A successful write takes all of the data; after an error nothing is taken or sent. */
    method Write(data: Bytes) returns (n: nat, err: bool)
      requires Valid()
      modifies this, out
      ensures Valid() && n <= |data| && accepted == old(accepted) + data[..n] && given == old(given)
      ensures (!err ==> n == |data|) && (err <==> writeErr)
      ensures err && !old(writeErr) ==> out.lost
      ensures old(writeErr) ==> n == 0 && err && out.body == old(out.body) && out.lost == old(out.lost)
      ensures old(decided) ==> decided && compressed == old(compressed) && encoder.Some? == old(encoder.Some?)
      ensures !old(decided) ==>
                var verdict := old(Judge(Typed(head, data, detect), out.committed, out.fields, minBytes, |buffer| + |data|, false));
                && (decided <==> verdict != Hold) && (compressed <==> verdict == Compress && pooled)
                && (!decided ==> !err && head == Typed(old(head), data, detect) && out.fields == old(out.fields))
    {
      if writeErr {
        return 0, true;
      }
      MarkWritten();
      if decided {
        n, err := Send(data);
      } else {
        n, err := WriteUndecided(data);
      }
    }

    /** What an encoder still holds back goes out. */
    method SyncEncoder() returns (err: bool)
      requires Valid() && decided && !writeErr
      modifies this`encoder, this`ops, this`writeErr, out`body, out`committed, out`sent, out`lost
      ensures Valid() && (err <==> writeErr) && (err ==> out.lost)
      ensures !err ==> if compressed then shown(out.body) == accepted else out.body == accepted
      ensures encoder.Some? == old(encoder.Some?)
    {
      err := false;
      if encoder.Some? {
        ghost var before := ops;
        err := Call(Sync);
        assert Syncs(encode, shown, before);
        PayloadAfter(before, Sync);
        assert Payload(before) + [] == Payload(before);
        writeErr := err;
      }
    }

    /** What has been handed on so far is pushed out. */
    method PushOut() returns (err: bool)
      requires Valid() && decided && !writeErr
      requires if compressed then shown(out.body) == accepted else out.body == accepted
      modifies this`writeErr, out`delivered, out`committed, out`sent, out`stalled
      ensures Valid() && (err <==> writeErr) && (err ==> out.stalled)
      ensures !err ==> out.committed && Visible()
    {
      err := out.Flush();
      writeErr := err;
    }

    method FlushDecided() returns (err: bool)
      requires Valid() && decided && !writeErr
      modifies this`encoder, this`ops, this`writeErr
      modifies out`body, out`delivered, out`committed, out`sent, out`lost, out`stalled
      ensures Valid() && (err <==> writeErr) && (err ==> out.lost || out.stalled)
      ensures !err ==> out.committed && Visible()
      ensures encoder.Some? == old(encoder.Some?)
    {
      err := SyncEncoder();
      if !err {
        err := PushOut();
      }
    }

    method FlushError() returns (err: bool)
      requires Valid()
      modifies this, out
      ensures Valid() && accepted == old(accepted) && given == old(given) && (err <==> writeErr)
      ensures !err ==> decided && out.committed && Visible()
      ensures err && !old(writeErr) ==> out.lost || out.stalled
      ensures old(writeErr) ==> err && out.body == old(out.body) && out.lost == old(out.lost)
      ensures old(decided) ==> decided && compressed == old(compressed) && encoder.Some? == old(encoder.Some?)
    {
      if writeErr {
        return true;
      }
      MarkWritten();
      err := Commit();
      if !err {
        err := FlushDecided();
      }
    }

    /** Even after a failed flush, for the encoder does not know of it. */
    method CloseEncoder()
      requires Valid() && decided && encoder.Some?
      modifies this`encoder, this`ops, this`writeErr, out`body, out`committed, out`sent, out`lost
      ensures Valid() && Closed() && writeErr
      ensures old(out.lost) ==> out.lost && out.body == old(out.body)
    {
      ghost var before := ops;
      var err := Call(Close);
      assert Decodes(encode, decode, before);
      assert Payload(before) + [] == Payload(before);
      encoder := None;
      writeErr := true;
    }

    /**
     The end of the response. Unless a write below has failed the body, decoded as the headers say, is
     all the data that was taken, whether it was compressed, sent as it is, or had been held back until
     now; after a compressed response nothing can be sent any more.
     */
    method Finish()
      requires Valid()
      modifies this, out
      ensures Valid() && decided && encoder.None? && accepted == old(accepted) && given == old(given)
      ensures !out.lost ==> Complete()
      ensures compressed ==> Closed() && writeErr
      ensures old(decided) ==> compressed == old(compressed)
      ensures !old(decided) ==>
                (compressed <==> pooled && old(Judge(head, out.committed, out.fields, minBytes, |buffer|, true)) == Compress)
      ensures old(out.lost || Closed()) ==> out.body == old(out.body)
    {
      var err := Commit();
      if encoder.Some? {
        CloseEncoder();
      }
    }

    /** After a panic: a response of which nothing was sent is left to whoever sends the error. */
    method Recover()
      requires Valid()
      modifies this, out
      ensures Valid()
      ensures !old(out.committed) ==> out.body == [] && !out.committed && out.fields == given
      ensures old(out.committed) && !out.lost ==> Complete()
      ensures old(out.committed) && compressed ==> Closed()
    {
      if out.committed {
        Finish();
      }
    }

    method ServeBody(data: Bytes) returns (err: bool)
      requires Valid()
      modifies this, out
      ensures Valid() && (err ==> writeErr)
      ensures old(writeErr) ==> writeErr && out.body == old(out.body) && out.lost == old(out.lost) && accepted == old(accepted)
      ensures !err ==> accepted == old(accepted) + data
      ensures old(decided) ==> decided && compressed == old(compressed) && encoder.Some? == old(encoder.Some?)
    {
      var n;
      n, err := Write(data);
      assert !err ==> data[..n] == data;
    }

    /** One request of the handler; `err` is what it is told. */
    method Serve(call: Request) returns (err: bool)
      requires Valid()
      modifies this, out
      ensures Valid() && (err ==> writeErr)
      ensures old(writeErr) ==> writeErr && out.body == old(out.body) && out.lost == old(out.lost) && accepted == old(accepted)
      ensures !err ==> accepted == old(accepted) + DataOf(call)
      ensures old(decided) ==> decided && compressed == old(compressed) && encoder.Some? == old(encoder.Some?)
    {
      err := false;
      match call
      case Header(head, fields) => SetHead(head, fields);
      case Status(code) => WriteHeader(code);
      case HeaderNow => WriteHeaderNow();
      case Body(data) => err := ServeBody(data);
      case Flush => err := FlushError();
    }

    /** Any requests one after the other; `failed` tells whether the handler has been told of an error. */
    method ServeAll(calls: seq<Request>) returns (failed: bool)
      requires Valid()
      modifies this, out
      ensures Valid() && (failed ==> writeErr)
      ensures old(writeErr) ==> writeErr && out.body == old(out.body) && out.lost == old(out.lost) && accepted == old(accepted)
      ensures !failed ==> accepted == old(accepted) + Sent(calls)
      ensures old(decided) ==> decided && compressed == old(compressed) && encoder.Some? == old(encoder.Some?)
    {
      if calls == [] {
        return false;
      }
      failed := ServeAll(calls[..|calls| - 1]);
      var err := Serve(calls[|calls| - 1]);
      failed := failed || err;
      SentLast(calls, old(accepted));
    }

    /**
     A whole response, as the middleware ends it: whatever the handler does with the writer, unless a
     write below has failed the client can decode, as the headers say, all data that was taken, and if
     the handler was never told of an error that is all data it sent.
     */
    method Respond(calls: seq<Request>) returns (failed: bool)
      requires Valid() && accepted == []
      modifies this, out
      ensures Valid() && decided && out.committed && (compressed ==> Closed() && writeErr)
      ensures !failed ==> accepted == Sent(calls)
      ensures !out.lost ==> Complete()
    {
      failed := ServeAll(calls);
      assert accepted == [] + accepted;
      Finish();
      CommitHeaders();
    }

    /** The parts sent so far have not settled the matter, or have settled it the way the whole response asks for. */
    ghost predicate Settled(first: Head, fields: Fields, parts: seq<Bytes>)
      reads this, out
    {
      var typed := if parts == [] then first else Typed(first, parts[0], detect);
      var total := TotalBytes(parts);
      if decided then
        && parts != [] && (Eligible(typed, fields, minBytes) ==> LongEnough(typed, minBytes, total))
        && (compressed <==> pooled && Eligible(typed, fields, minBytes))
      else
        && head == typed && out.fields == fields && |accepted| == total
        && (parts != [] ==> Eligible(typed, fields, minBytes) && !LongEnough(typed, minBytes, total))
    }

    lemma TypedOnce(first: Head, a: Bytes, b: Bytes)
      ensures TypeWorthIt(Typed(first, a, detect).mediaType) ==> Typed(Typed(first, a, detect), b, detect) == Typed(first, a, detect)
    {
    }

    /** One more part: nothing is settled twice, and what settles it is the amount of data so far. */
    method SettlePart(first: Head, fields: Fields, before: seq<Bytes>, part: Bytes)
      requires Valid() && Settled(first, fields, before)
      modifies this, out
      ensures Valid() && Settled(first, fields, before + [part])
      ensures old(decided) ==> decided && compressed == old(compressed)
    {
      ghost var all := before + [part];
      ghost var typed := Typed(first, all[0], detect);
      TotalBytesConcat(before, [part]);
      assert TotalBytes([part]) == |part| + TotalBytes([]);
      if !decided && before != [] {
        TypedOnce(first, before[0], part);
      }
      assert !decided ==> Typed(head, part, detect) == typed && TotalBytes(all) == |buffer| + |part|;
      JudgedExactly(typed, fields, minBytes, TotalBytes(all), false);
      var n, err := Write(part);
      assert !err ==> part[..n] == part;
    }

    /**
     A response whose head is set first and whose body follows in parts is compressed exactly if an encoder
     can be had, the head is eligible and all parts together are long enough. Where nothing states the type
     it is guessed from the first part.
     */
    method RespondInParts(first: Head, fields: Fields, parts: seq<Bytes>)
      requires Valid() && !decided && accepted == []
      modifies this, out
      ensures Valid() && decided && (!out.lost ==> Complete())
      ensures var typed := if parts == [] then first else Typed(first, parts[0], detect);
              compressed <==> pooled && Eligible(typed, fields, minBytes) && LongEnough(typed, minBytes, TotalBytes(parts))
    {
      SetHead(first, fields);
      for i := 0 to |parts|
        invariant Valid() && Settled(first, fields, parts[..i])
      {
        SettlePart(first, fields, parts[..i], parts[i]);
        assert parts[..i + 1] == parts[..i] + [parts[i]];
      }
      assert parts[..|parts|] == parts;
      JudgedExactly(head, out.fields, minBytes, |buffer|, true);
      Finish();
    }

    /** What is done with the writer afterwards, another end included, does not touch a compressed response. */
    method RespondAndMore(calls: seq<Request>, late: seq<Request>) returns (ghost ended: Bytes, ghost taken: Bytes)
      requires Valid() && accepted == []
      modifies this, out
      ensures compressed ==> out.body == ended && accepted == taken
      ensures !out.lost ==> Complete()
    {
      var failed := Respond(calls);
      ended, taken := out.body, accepted;
      failed := ServeAll(late);
      Finish();
    }
  }
}
