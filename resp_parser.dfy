/** `RespParser`: the request decoder as the source runs it, a reader that
    moves a position through the buffered input one call at a time. Each
    method is proved to do what the matching function of `RespDecoder` says,
    both in its result and in how far it moves the reader. */
module RespParser {
  import opened Bytes
  import opened Wrappers
  import opened RespTypes
  import opened RespDecoder

  class Parser {
    /** Everything the connection delivers, and the read position in it. */
    const input: Bytes
    var pos: nat

    ghost predicate Valid()
      reads this
    {
      pos <= |input|
    }

    /** `MakeRespParser`: a reader at the start of the stream. */
    constructor (input: Bytes)
      ensures Valid() && this.input == input && pos == 0
    {
      this.input := input;
      pos := 0;
    }

    /** `bufio.Reader.ReadByte`. */
    method ReadByte() returns (r: Res<byte>)
      requires Valid()
      modifies this`pos
      ensures Valid()
      ensures Step(r, pos) == ByteAt(input, old(pos))
    {
      if pos == |input| {
        r := Failure(EndOfInput);
      } else {
        r := Success(input[pos]);
        pos := pos + 1;
      }
    }

    /** `bufio.Reader.ReadBytes('\r')`, giving the bytes before the '\r'; without
        a '\r' it consumes everything and fails. */
    method ReadBytesToCR() returns (r: Option<Bytes>)
      requires Valid()
      modifies this`pos
      ensures Valid()
      ensures FindCR(input, old(pos)).None? ==> r.None? && pos == |input|
      ensures FindCR(input, old(pos)).Some? ==>
        var k := FindCR(input, old(pos)).value;
        r == Some(input[old(pos)..k]) && pos == k + 1
    {
      var start := pos;
      while pos < |input| && input[pos] != CR
        invariant start <= pos <= |input|
        invariant forall j :: start <= j < pos ==> input[j] != CR
        decreases |input| - pos
      {
        pos := pos + 1;
      }
      if pos == |input| {
        r := None;
      } else {
        FindCRAt(input, start, pos);
        r := Some(input[start..pos]);
        pos := pos + 1;
      }
    }

    /** `bufio.Reader.Discard(n)`: skips up to `n` bytes, fewer at the end of input. */
    method Discard(n: nat)
      requires Valid()
      modifies this`pos
      ensures Valid() && pos == Min(old(pos) + n, |input|)
    {
      pos := Min(pos + n, |input|);
    }

    /** `bufio.Reader.Read` of `n` bytes; a buffer with fewer left is a failure. */
    method Read(n: nat) returns (r: Option<Bytes>)
      requires Valid()
      modifies this`pos
      ensures Valid()
      ensures old(pos) + n <= |input| ==> r == Some(input[old(pos)..old(pos) + n]) && pos == old(pos) + n
      ensures old(pos) + n > |input| ==> r.None? && pos == |input|
    {
      if pos + n <= |input| {
        r := Some(input[pos..pos + n]);
        pos := pos + n;
      } else {
        r := None;
        pos := |input|;
      }
    }

    /** `parseSize`. */
    method ParseSize() returns (r: Res<int>)
      requires Valid()
      modifies this`pos
      ensures Valid()
      ensures Step(r, pos) == SizeAt(input, old(pos))
    {
      var bs := ReadBytesToCR();
      if bs.None? {
        return Failure(MissingSizeTerminator);
      }
      var arrLen := Decimal.ParseInt(bs.value);
      if arrLen.None? {
        return Failure(InvalidInteger(bs.value));
      }
      Discard(1);
      r := Success(arrLen.value);
    }

    /** `parseBulkString`. */
    method ParseBulkString() returns (r: Res<Bytes>)
      requires Valid()
      modifies this`pos
      ensures Valid()
      ensures Step(r, pos) == BulkAt(input, old(pos))
    {
      var b := ReadByte();
      if b.Failure? {
        return Failure(b.error);
      }
      if b.value != DOLLAR {
        return Failure(NotABulkString(b.value));
      }
      var strLen := ParseSize();
      if strLen.Failure? {
        return Failure(strLen.error);
      }
      if strLen.value < 0 {
        return Failure(NegativeLength(strLen.value));
      }
      var bulkStr := Read(strLen.value);
      if bulkStr.None? {
        return Failure(Truncated(strLen.value));
      }
      Discard(2);
      r := Success(bulkStr.value);
    }

    /** `Parse`: the array marker, its size, then that many bulk strings;
        element 0 is the name and the others are appended to the arguments. */
    method Parse() returns (r: Res<Command>)
      requires Valid()
      modifies this`pos
      ensures Valid()
      ensures Step(r, pos) == ParseAt(input, old(pos))
    {
      var b := ReadByte();
      if b.Failure? {
        return Failure(b.error);
      }
      if b.value != STAR {
        return Failure(NotAnArray(b.value));
      }
      ghost var first := old(pos);
      var arrLen := ParseSize();
      if arrLen.Failure? {
        ParseSizeFails(input, first, arrLen.error, pos);
        return Failure(arrLen.error);
      }
      ghost var start := pos;
      assert first < |input| && input[first] == STAR;
      assert SizeAt(input, first + 1) == Step(Success(arrLen.value), start);
      ghost var count: nat := if arrLen.value < 0 then 0 else arrLen.value;
      ghost var elements: seq<Bytes> := [];
      var name: Bytes := [];
      var args: seq<Bytes> := [];
      var i := 0;
      while i < arrLen.value
        invariant Valid()
        invariant first < |input| && input[first] == STAR
        invariant SizeAt(input, first + 1) == Step(Success(arrLen.value), start)
        invariant 0 <= i <= count
        invariant ElementsAt(input, start, i) == Step(Success(elements), pos)
        invariant Command(name, args) == CommandOf(elements)
        decreases arrLen.value - i
      {
        ghost var at := pos;
        var str := ParseBulkString();
        if str.Failure? {
          ElementsStepFails(input, start, i + 1, elements, at, str.error, pos);
          ElementsFailureStays(input, start, i + 1, count);
          ParseStepFails(input, first, count, start, str.error, pos);
          return Failure(str.error);
        }
        ghost var grown := elements + [str.value];
        ElementsStep(input, start, i + 1, elements, at, str.value, pos);
        CommandOfAppend(elements, str.value);
        if i == 0 {
          name := str.value;
        } else {
          args := args + [str.value];
        }
        elements := grown;
        i := i + 1;
      }
      assert i == count;
      ParseStep(input, first, arrLen.value, start, elements, pos);
      r := Success(Command(name, args));
    }
  }
}
