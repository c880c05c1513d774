/** What the decoder makes of what the writers produce: `Parse` reads back
    exactly the framing `OutputArray` writes, and the line-shaped replies read
    back through the decoder's size-line reader. */
module RoundTrip {
  import opened Bytes
  import opened Wrappers
  import opened Decimal
  import opened RespTypes
  import opened RespDecoder
  import opened RespEncoder
  import opened Seqs
  import opened SetValidator

  /** A size line: the decimal text of `n`, a '\r' and one more byte reads as `n`
      and leaves the reader just after that byte. */
  lemma SizeLineAt(input: Bytes, p: nat, n: int)
    requires p + |IntToDecimal(n)| + 1 < |input|
    requires input[p..p + |IntToDecimal(n)|] == IntToDecimal(n)
    requires input[p + |IntToDecimal(n)|] == CR
    ensures SizeAt(input, p) == Step(Success(n), p + |IntToDecimal(n)| + 2)
  {
    var d := IntToDecimal(n);
    var k := p + |d|;
    forall j | p <= j < k
      ensures input[j] != CR
    {
      assert input[j] == input[p..k][j - p] == d[j - p];
    }
    FindCRAt(input, p, k);
    ParseIntOfDecimal(n);
  }

  /** Where a marker, a size text, CRLF and some content sit in the input,
      each of them sits where expected. */
  lemma LineLayout(input: Bytes, p: nat, marker: byte, d: Bytes, content: Bytes)
    requires p + |[marker] + d + CRLF + content| <= |input|
    requires input[p..p + |[marker] + d + CRLF + content|] == [marker] + d + CRLF + content
    ensures input[p] == marker
    ensures input[p + 1..p + 1 + |d|] == d
    ensures input[p + 1 + |d|] == CR
    ensures input[p + 3 + |d|..p + 3 + |d| + |content|] == content
  {
    var head := [marker] + d;
    SliceAppend(input, p, head + CRLF, content);
    SliceAppend(input, p, head, CRLF);
    SliceAppend(input, p, [marker], d);
    assert input[p] == marker by { assert input[p..p + 1][0] == marker; }
    assert input[p + |head|] == CR by { assert input[p + |head|..p + |head| + 2][0] == CR; }
  }

  /** A bulk string frame of `v` in the input reads back as `v` and is consumed whole. */
  lemma BulkAtFrame(input: Bytes, p: nat, v: Bytes)
    requires p + |BulkFrame(v)| <= |input|
    requires input[p..p + |BulkFrame(v)|] == BulkFrame(v)
    ensures BulkAt(input, p) == Step(Success(v), p + |BulkFrame(v)|)
  {
    var d := NatToDecimal(|v|);
    FrameSpelled(v);
    SliceAppend(input, p, [DOLLAR] + d + CRLF + v, CRLF);
    LineLayout(input, p, DOLLAR, d, v);
    assert IntToDecimal(|v|) == d;
    SizeLineAt(input, p + 1, |v|);
    BulkStep(input, p, |v|, p + 3 + |d|);
  }

  /** The frames of `strs`, one bulk string each, read back as `strs` in order. */
  lemma {:induction false} ElementsOfFrames(input: Bytes, p: nat, strs: seq<Bytes>)
    requires p + |BulkFrames(strs)| <= |input|
    requires input[p..p + |BulkFrames(strs)|] == BulkFrames(strs)
    ensures ElementsAt(input, p, |strs|) == Step(Success(strs), p + |BulkFrames(strs)|)
    decreases |strs|
  {
    if strs != [] {
      var init, last := strs[..|strs| - 1], strs[|strs| - 1];
      var framesInit := BulkFrames(init);
      SliceAppend(input, p, framesInit, BulkFrame(last));
      ElementsOfFrames(input, p, init);
      var q := p + |framesInit|;
      BulkAtFrame(input, q, last);
      ElementsStep(input, p, |strs|, init, q, last, q + |BulkFrame(last)|);
      SplitLast(strs);
    }
  }

  /** `Parse` reads what `OutputArray` writes: the command whose name is the
      first string and whose arguments are the rest, with the reader left just
      after the reply. */
  lemma ParseOfArrayReply(input: Bytes, p: nat, strs: seq<Bytes>)
    requires p + |ArrayReply(strs)| <= |input|
    requires input[p..p + |ArrayReply(strs)|] == ArrayReply(strs)
    ensures ParseAt(input, p) == Step(Success(CommandOf(strs)), p + |ArrayReply(strs)|)
  {
    var d := NatToDecimal(|strs|);
    var frames := BulkFrames(strs);
    LineLayout(input, p, STAR, d, frames);
    assert IntToDecimal(|strs|) == d;
    SizeLineAt(input, p + 1, |strs|);
    var q := p + 3 + |d|;
    ElementsOfFrames(input, q, strs);
    ParseStep(input, p, |strs|, q, strs, q + |frames|);
  }

  /** Round trip: whatever follows it in the stream, the request written by
      `OutputArray([name] + args)` parses to `Command{name, args}` and is
      consumed exactly. */
  lemma ParseRoundTrip(name: Bytes, args: seq<Bytes>, rest: Bytes)
    ensures
      var request := ArrayReply([name] + args);
      ParseAt(request + rest, 0) == Step(Success(Command(name, args)), |request|)
  {
    var strs := [name] + args;
    var request := ArrayReply(strs);
    WholeSlice(request + rest);
    SliceAppend(request + rest, 0, request, rest);
    ParseOfArrayReply(request + rest, 0, strs);
    DropFirst(name, args);
  }

  /** Two requests back to back on one connection parse one after the other. */
  lemma ParsePipelined(first: seq<Bytes>, second: seq<Bytes>)
    ensures
      var a, b := ArrayReply(first), ArrayReply(second);
      var one := ParseAt(a + b, 0);
      && one == Step(Success(CommandOf(first)), |a|)
      && ParseAt(a + b, one.next) == Step(Success(CommandOf(second)), |a + b|)
  {
    var a, b := ArrayReply(first), ArrayReply(second);
    WholeSlice(a + b);
    SliceAppend(a + b, 0, a, b);
    ParseOfArrayReply(a + b, 0, first);
    ParseOfArrayReply(a + b, |a|, second);
  }

  /** `OutputInteger(i)` is ':' and a line the size reader reads back as `i`. */
  lemma IntegerReplyReads(i: int)
    ensures OutputInteger(i)[0] == COLON
    ensures SizeAt(OutputInteger(i), 1) == Step(Success(i), |OutputInteger(i)|)
  {
    var r := OutputInteger(i);
    var d := IntToDecimal(i);
    WholeSlice(r);
    SliceAppend(r, 0, [COLON] + d, CRLF);
    SliceAppend(r, 0, [COLON], d);
    assert r[1 + |d|] == CR by { assert r[1 + |d|..1 + |d| + 2][0] == CR; }
    SizeLineAt(r, 1, i);
  }

  /** `OutputNullSimpleString` is the RESP null bulk string: a bulk header of
      length -1, which the bulk string decoder refuses as content. */
  lemma NullReplyReads()
    ensures OutputNullSimpleString()[0] == DOLLAR
    ensures SizeAt(OutputNullSimpleString(), 1) == Step(Success(-1), 5)
    ensures BulkAt(OutputNullSimpleString(), 0) == Step(Failure(NegativeLength(-1)), 5)
  {
    var r := OutputNullSimpleString();
    assert IntToDecimal(-1) == [MINUS, ZERO + 1];
    assert r[1..3] == IntToDecimal(-1);
    SizeLineAt(r, 1, -1);
  }

  /** `OutputSimpleString(text)`, for a text without '\r', is '+' and one line
      whose content is exactly `text`, ended by CRLF. */
  lemma SimpleStringReads(text: Bytes)
    requires forall j :: 0 <= j < |text| ==> text[j] != CR
    ensures
      var r := OutputSimpleString(text);
      && r[0] == PLUS
      && FindCR(r, 1) == Some(1 + |text|)
      && r[1..1 + |text|] == text
      && r[1 + |text|..] == CRLF
  {
    var r := OutputSimpleString(text);
    forall j | 1 <= j < 1 + |text|
      ensures r[j] != CR
    {
      assert r[j] == text[j - 1];
    }
    FindCRAt(r, 1, 1 + |text|);
  }

  /** As written, `OutputBulkStrings` on two or more strings is not a run of
      bulk strings: the first reads back, the second is refused for lacking
      its '$'. */
  lemma BulkStringsSecondRejected(strs: seq<Bytes>)
    requires |strs| >= 2
    ensures
      var r := BulkStringsReply(strs);
      var second := |BulkFrame(strs[0])|;
      && ElementsAt(r, 0, 1) == Step(Success([strs[0]]), second)
      && second < |r| && IsDigit(r[second])
      && ElementsAt(r, 0, 2) == Step(Failure(NotABulkString(r[second])), second + 1)
  {
    var r := BulkStringsReply(strs);
    var f := BulkFrame(strs[0]);
    BulkStringsOneMarker(strs);
    WholeSlice(r);
    SliceAppend(r, 0, f, BulkBodies(strs[1..]));
    BulkAtFrame(r, 0, strs[0]);
    var none: seq<Bytes> := [];
    assert ElementsAt(r, 0, 0) == Step(Success(none), 0);
    ElementsStep(r, 0, 1, none, 0, strs[0], |f|);
    AppendEmpty([strs[0]]);
    assert r[|f|] != DOLLAR;
  }

  /** Corrected: each string framed on its own, as `OutputArray` writes them,
      reads back as the strings in order. */
  lemma BulkFramesDecode(strs: seq<Bytes>)
    ensures ElementsAt(BulkFrames(strs), 0, |strs|) == Step(Success(strs), |BulkFrames(strs)|)
  {
    var f := BulkFrames(strs);
    WholeSlice(f);
    ElementsOfFrames(f, 0, strs);
  }

  /** A SET request as a client writes it is decoded and validated into the
      key, the value and the absolute expiry the amount and unit give. */
  lemma SetRequestAccepted(key: Bytes, value: Bytes, unit: Bytes, amount: int, now: int)
    requires unit == Seconds || unit == Milliseconds
    ensures
      var request := ArrayReply([SetName] + [key, value, unit, IntToDecimal(amount)]);
      var parsed := ParseAt(request, 0);
      && parsed.result.Success?
      && parsed.next == |request|
      && ValidateSetCommand(parsed.result.value, now)
         == Success(SetCommand(key, value, now + amount * UnitMillis(unit)))
  {
    var args := [key, value, unit, IntToDecimal(amount)];
    ParseRoundTrip(SetName, args, []);
    AppendEmpty(ArrayReply([SetName] + args));
    SetWithExpiry(key, value, unit, amount, now);
  }

  /** The same without an expiry: the key and value are stored with none. */
  lemma SetRequestWithoutExpiry(key: Bytes, value: Bytes, now: int)
    ensures
      var request := ArrayReply([SetName] + [key, value]);
      var parsed := ParseAt(request, 0);
      && parsed.result.Success?
      && parsed.next == |request|
      && ValidateSetCommand(parsed.result.value, now) == Success(SetCommand(key, value, NoExpiry))
  {
    var args := [key, value];
    ParseRoundTrip(SetName, args, []);
    AppendEmpty(ArrayReply([SetName] + args));
    SetWithoutExpiry(key, value, now);
  }
}
