/** The reply writers of app/resp.go. The `io.Writer` is the sequence of bytes
    written so far: the straight-line writers are functions giving the bytes
    they write, and the two writers with a loop are methods that append to the
    output, one frame per iteration, proved against a recursive function. */
module RespEncoder {
  import opened Bytes
  import opened Wrappers
  import opened Decimal
  import opened Seqs

  /** `OutputSimpleString`: `+`, the text and CRLF. */
  function OutputSimpleString(text: Bytes): (r: Bytes)
    ensures |r| == |text| + 3 && r[0] == PLUS
    ensures r[1..1 + |text|] == text && r[1 + |text|..] == CRLF
  {
    Pieces([PLUS], text, CRLF);
    [PLUS] + text + CRLF
  }

  /** `OutputNullSimpleString`: the RESP null bulk string. */
  function OutputNullSimpleString(): (r: Bytes)
    ensures r == Ascii("$-1\r\n")
  {
    [DOLLAR, MINUS, ZERO + 1] + CRLF
  }

  /** `OutputInteger`: `:`, the decimal text of `i` and CRLF. */
  function OutputInteger(i: int): (r: Bytes)
    ensures |r| == |IntToDecimal(i)| + 3 && r[0] == COLON
    ensures r[1..1 + |IntToDecimal(i)|] == IntToDecimal(i) && r[1 + |IntToDecimal(i)|..] == CRLF
    ensures ParseInt(r[1..|r| - 2]) == Some(i)
  {
    Pieces([COLON], IntToDecimal(i), CRLF);
    ParseIntOfDecimal(i);
    [COLON] + IntToDecimal(i) + CRLF
  }

  /** What one iteration of `OutputBulkStrings` writes for `v`: its byte length,
      CRLF, its bytes, CRLF (no '$'). */
  function BulkBody(v: Bytes): Bytes {
    NatToDecimal(|v|) + CRLF + v + CRLF
  }

  /** A well-formed bulk string: `$<len>\r\n<bytes>\r\n`. */
  function BulkFrame(v: Bytes): Bytes {
    [DOLLAR] + BulkBody(v)
  }

  /** The loop bodies of `OutputBulkStrings` for `strs`, in order. */
  function BulkBodies(strs: seq<Bytes>): Bytes {
    if strs == [] then [] else BulkBodies(strs[..|strs| - 1]) + BulkBody(strs[|strs| - 1])
  }

  /** Each element of `strs` as its own bulk string, in order. */
  function BulkFrames(strs: seq<Bytes>): Bytes {
    if strs == [] then [] else BulkFrames(strs[..|strs| - 1]) + BulkFrame(strs[|strs| - 1])
  }

  /** Everything `OutputBulkStrings` writes: one '$', then the loop bodies. On
      a single string that is exactly its bulk string frame. */
  function BulkStringsReply(strs: seq<Bytes>): (r: Bytes)
    ensures |r| == 1 + |BulkBodies(strs)| && r[0] == DOLLAR && r[1..] == BulkBodies(strs)
    ensures |strs| == 1 ==> r == BulkFrame(strs[0])
  {
    if |strs| == 1 then
      TakeNone(strs);
      AppendEmpty(BulkBody(strs[0]));
      [DOLLAR] + BulkBodies(strs)
    else
      [DOLLAR] + BulkBodies(strs)
  }

  /** Everything `OutputArray` writes: `*`, the decimal count and CRLF, then
      the elements' frames, the first of them opening with its own '$'. */
  function ArrayReply(strs: seq<Bytes>): (r: Bytes)
    ensures
      var d := NatToDecimal(|strs|);
      && |r| == 3 + |d| + |BulkFrames(strs)|
      && r[0] == STAR
      && r[1..1 + |d|] == d
      && r[1 + |d|..3 + |d|] == CRLF
      && r[3 + |d|..] == BulkFrames(strs)
      && (|strs| > 0 ==> r[3 + |d|] == DOLLAR)
  {
    var d := NatToDecimal(|strs|);
    Pieces([STAR], d, CRLF);
    Pieces([STAR] + d, CRLF, BulkFrames(strs));
    Pieces([STAR], d, CRLF + BulkFrames(strs));
    AppendAssoc([STAR] + d, CRLF, BulkFrames(strs));
    AppendAssoc([STAR], d, CRLF + BulkFrames(strs));
    if |strs| > 0 then
      FramesAround(strs, 0);
      TakeNone(strs);
      [STAR] + d + CRLF + BulkFrames(strs)
    else
      [STAR] + d + CRLF + BulkFrames(strs)
  }

  /** `OutputBulkStrings`: writes '$' once, then each string's body in turn. */
  method OutputBulkStrings(strs: seq<Bytes>, out: Bytes) returns (written: Bytes)
    ensures written == out + BulkStringsReply(strs)
  {
    written := out + [DOLLAR];
    for i := 0 to |strs|
      invariant written == out + [DOLLAR] + BulkBodies(strs[..i])
    {
      PrefixOfPrefix(strs, i);
      AppendAssoc(out + [DOLLAR], BulkBodies(strs[..i]), BulkBody(strs[i]));
      written := written + BulkBody(strs[i]);
    }
    WholePrefix(strs);
    AppendAssoc(out, [DOLLAR], BulkBodies(strs));
  }

  /** `OutputArray`: the count line, then `OutputBulkStrings` on each element alone. */
  method OutputArray(strs: seq<Bytes>, out: Bytes) returns (written: Bytes)
    ensures written == out + ArrayReply(strs)
  {
    written := out + ([STAR] + NatToDecimal(|strs|) + CRLF);
    ghost var header := written;
    for i := 0 to |strs|
      invariant written == header + BulkFrames(strs[..i])
    {
      written := OutputBulkStrings([strs[i]], written);
      FramesStep(strs, i);
      AppendAssoc(header, BulkFrames(strs[..i]), BulkStringsReply([strs[i]]));
    }
    WholePrefix(strs);
    AppendAssoc(out, [STAR] + NatToDecimal(|strs|) + CRLF, BulkFrames(strs));
  }

  /** One more element adds one more frame, the one `OutputBulkStrings` writes for it alone. */
  lemma FramesStep(strs: seq<Bytes>, i: nat)
    requires i < |strs|
    ensures BulkFrames(strs[..i + 1]) == BulkFrames(strs[..i]) + BulkStringsReply([strs[i]])
  {
    PrefixOfPrefix(strs, i);
    SingleBulkString(strs[i]);
  }

  /** For a single string `OutputBulkStrings` writes a well-formed bulk string. */
  lemma SingleBulkString(v: Bytes)
    ensures BulkStringsReply([v]) == BulkFrame(v)
    ensures BulkBodies([v]) == BulkBody(v) && BulkFrames([v]) == BulkFrame(v)
  {
    var one: seq<Bytes> := [v];
    var none: seq<Bytes> := [];
    assert one[..0] == none;
    assert BulkBodies(one) == [] + BulkBody(v) == BulkBody(v);
    assert BulkFrames(one) == [] + BulkFrame(v) == BulkFrame(v);
  }

  /** Framing is per element: the frames of `a + b` are those of `a`, then those of `b`. */
  lemma {:induction false} BulkFramesAppend(a: seq<Bytes>, b: seq<Bytes>)
    ensures BulkFrames(a + b) == BulkFrames(a) + BulkFrames(b)
    decreases |b|
  {
    if b == [] {
      AppendEmpty(a);
    } else {
      var init, last := b[..|b| - 1], b[|b| - 1];
      AppendDropLast(a, b);
      BulkFramesAppend(a, init);
      AppendAssoc(BulkFrames(a), BulkFrames(init), BulkFrame(last));
    }
  }

  /** The same for the bodies of `OutputBulkStrings`. */
  lemma {:induction false} BulkBodiesAppend(a: seq<Bytes>, b: seq<Bytes>)
    ensures BulkBodies(a + b) == BulkBodies(a) + BulkBodies(b)
    decreases |b|
  {
    if b == [] {
      AppendEmpty(a);
    } else {
      var init, last := b[..|b| - 1], b[|b| - 1];
      AppendDropLast(a, b);
      BulkBodiesAppend(a, init);
      AppendAssoc(BulkBodies(a), BulkBodies(init), BulkBody(last));
    }
  }

  /** The bodies of a non-empty run start with the body of its first string. */
  lemma BulkBodiesFirst(strs: seq<Bytes>)
    requires |strs| > 0
    ensures BulkBodies(strs) == BulkBody(strs[0]) + BulkBodies(strs[1..])
  {
    SplitFirst(strs);
    BulkBodiesAppend([strs[0]], strs[1..]);
    SingleBulkString(strs[0]);
  }

  /** `OutputArray` framing written out: the count line, then for each element
      in order its `$`, byte length, CRLF, bytes and CRLF. */
  lemma ArrayReplyFraming(strs: seq<Bytes>, i: nat)
    requires i < |strs|
    ensures ArrayReply(strs) ==
      ([STAR] + NatToDecimal(|strs|) + CRLF)
      + BulkFrames(strs[..i])
      + ([DOLLAR] + NatToDecimal(|strs[i]|) + CRLF + strs[i] + CRLF)
      + BulkFrames(strs[i + 1..])
  {
    FramesAround(strs, i);
    FrameSpelled(strs[i]);
    var header := [STAR] + NatToDecimal(|strs|) + CRLF;
    var frames, rest := BulkFrames(strs[..i]), BulkFrames(strs[i + 1..]);
    AppendAssoc(header, frames + BulkFrame(strs[i]), rest);
    AppendAssoc(header, frames, BulkFrame(strs[i]));
  }

  /** The frames of `strs` split around element `i`. */
  lemma FramesAround(strs: seq<Bytes>, i: nat)
    requires i < |strs|
    ensures BulkFrames(strs) == BulkFrames(strs[..i]) + BulkFrame(strs[i]) + BulkFrames(strs[i + 1..])
  {
    var pre, mid, post := strs[..i], [strs[i]], strs[i + 1..];
    SplitAt(strs, i);
    BulkFramesAppend(pre + mid, post);
    BulkFramesAppend(pre, mid);
    SingleBulkString(strs[i]);
  }

  /** A bulk string frame, byte group by byte group. */
  lemma FrameSpelled(v: Bytes)
    ensures BulkFrame(v) == [DOLLAR] + NatToDecimal(|v|) + CRLF + v + CRLF
  {
    var d := NatToDecimal(|v|);
    AppendAssoc([DOLLAR], d + CRLF + v, CRLF);
    AppendAssoc([DOLLAR], d + CRLF, v);
    AppendAssoc([DOLLAR], d, CRLF);
  }

  /** `OutputBulkStrings` on several strings: only the first frame carries a '$';
      the second frame starts with a digit of its length. */
  lemma BulkStringsOneMarker(strs: seq<Bytes>)
    requires |strs| >= 2
    ensures BulkStringsReply(strs) == BulkFrame(strs[0]) + BulkBodies(strs[1..])
    ensures
      var second := |BulkFrame(strs[0])|;
      second < |BulkStringsReply(strs)| && IsDigit(BulkStringsReply(strs)[second])
  {
    var rest := strs[1..];
    BulkBodiesFirst(strs);
    AppendAssoc([DOLLAR], BulkBody(strs[0]), BulkBodies(rest));
    BulkBodiesFirst(rest);
    var tail := BulkBodies(rest);
    var d := NatToDecimal(|rest[0]|);
    assert tail[0] == BulkBody(rest[0])[0] == d[0];
  }
}
