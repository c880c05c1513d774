/** The request decoder of app/resp.go as functions of the whole input and a
    read position: what `RespParser.Parse`, `parseSize` and `parseBulkString`
    return and how far they move the reader. `RespParser.Parser` runs these
    step by step. */
module RespDecoder {
  import opened Bytes
  import opened Wrappers
  import opened Decimal
  import opened RespTypes

  function Min(a: nat, b: nat): nat {
    if a < b then a else b
  }

  /** `ReadByte`: the byte at the position, or end of input. */
  function ByteAt(input: Bytes, p: nat): (s: Step<byte>)
    requires p <= |input|
    ensures p <= s.next <= |input|
  {
    if p < |input| then Step(Success(input[p]), p + 1) else Step(Failure(EndOfInput), p)
  }

  /** Where `ReadBytes('\r')` stops: the first '\r' at or after `p`. */
  function FindCR(input: Bytes, p: nat): (r: Option<nat>)
    requires p <= |input|
    ensures r.Some? ==> p <= r.value < |input| && input[r.value] == CR
    ensures r.Some? ==> forall j :: p <= j < r.value ==> input[j] != CR
    ensures r.None? ==> forall j :: p <= j < |input| ==> input[j] != CR
    decreases |input| - p
  {
    if p == |input| then None
    else if input[p] == CR then Some(p)
    else FindCR(input, p + 1)
  }

  /** The first '\r' is determined by where it is: a '\r' at `k` with none
      before it from `p` on is what `FindCR` finds. */
  lemma FindCRAt(input: Bytes, p: nat, k: nat)
    requires p <= k < |input| && input[k] == CR
    requires forall j :: p <= j < k ==> input[j] != CR
    ensures FindCR(input, p) == Some(k)
  {
  }

  /** `parseSize`: the text up to the first '\r' read as an integer; then one
      more byte is skipped, whatever it is. */
  function SizeAt(input: Bytes, p: nat): (s: Step<int>)
    requires p <= |input|
    ensures p <= s.next <= |input|
    ensures FindCR(input, p).None? ==> s == Step(Failure(MissingSizeTerminator), |input|)
    ensures s.result.Success? ==>
      var k := FindCR(input, p).value;
      ParseInt(input[p..k]) == Some(s.result.value) && s.next == Min(k + 2, |input|)
    ensures FindCR(input, p).Some? ==>
      var k := FindCR(input, p).value;
      && (ParseInt(input[p..k]).Some? ==>
            s == Step(Success(ParseInt(input[p..k]).value), Min(k + 2, |input|)))
      && (ParseInt(input[p..k]).None? ==> s == Step(Failure(InvalidInteger(input[p..k])), k + 1))
  {
    match FindCR(input, p)
    case None => Step(Failure(MissingSizeTerminator), |input|)
    case Some(k) =>
      var text := input[p..k];
      match ParseInt(text)
      case None => Step(Failure(InvalidInteger(text)), k + 1)
      case Some(n) => Step(Success(n), Min(k + 2, |input|))
  }

  /** `parseBulkString`: a '$', a size line, exactly that many bytes, and two
      more bytes skipped without looking at them. */
  function BulkAt(input: Bytes, p: nat): (s: Step<Bytes>)
    requires p <= |input|
    ensures p <= s.next <= |input|
    ensures p == |input| ==> s == Step(Failure(EndOfInput), p)
    ensures p < |input| && input[p] != DOLLAR ==> s == Step(Failure(NotABulkString(input[p])), p + 1)
    ensures s.result.Success? ==>
      var size := SizeAt(input, p + 1);
      && input[p] == DOLLAR
      && size.result == Success(|s.result.value|)
      && size.next + |s.result.value| <= |input|
      && s.result.value == input[size.next..size.next + |s.result.value|]
      && s.next == Min(size.next + |s.result.value| + 2, |input|)
  {
    if p == |input| then Step(Failure(EndOfInput), p)
    else if input[p] != DOLLAR then Step(Failure(NotABulkString(input[p])), p + 1)
    else
      var size := SizeAt(input, p + 1);
      match size.result
      case Failure(e) => Step(Failure(e), size.next)
      case Success(n) =>
        var q := size.next;
        if n < 0 then Step(Failure(NegativeLength(n)), q)
        else if q + n > |input| then Step(Failure(Truncated(n)), |input|)
        else Step(Success(input[q..q + n]), Min(q + n + 2, |input|))
  }

  /** A whole bulk string: `BulkAt` unfolded once on its success path. */
  lemma BulkStep(input: Bytes, p: nat, n: nat, q: nat)
    requires p < |input| && input[p] == DOLLAR
    requires SizeAt(input, p + 1) == Step(Success(n), q)
    requires q + n <= |input|
    ensures BulkAt(input, p) == Step(Success(input[q..q + n]), Min(q + n + 2, |input|))
  {
  }

  /** The first `n` bulk strings from `p` on, in order; the first failure ends it. */
  function ElementsAt(input: Bytes, p: nat, n: nat): (s: Step<seq<Bytes>>)
    requires p <= |input|
    ensures p <= s.next <= |input|
    ensures s.result.Success? ==> |s.result.value| == n
    decreases n
  {
    if n == 0 then Step(Success([]), p)
    else
      var prev := ElementsAt(input, p, n - 1);
      match prev.result
      case Failure(e) => prev
      case Success(elements) =>
        var e := BulkAt(input, prev.next);
        match e.result
        case Failure(err) => Step(Failure(err), e.next)
        case Success(str) => Step(Success(elements + [str]), e.next)
  }

  /** `Parse`: a '*', a size line, then that many bulk strings (none when the
      size is not positive). */
  function ParseAt(input: Bytes, p: nat): (s: Step<Command>)
    requires p <= |input|
    ensures p <= s.next <= |input|
    ensures p == |input| ==> s == Step(Failure(EndOfInput), p)
    ensures p < |input| && input[p] != STAR ==> s == Step(Failure(NotAnArray(input[p])), p + 1)
  {
    if p == |input| then Step(Failure(EndOfInput), p)
    else if input[p] != STAR then Step(Failure(NotAnArray(input[p])), p + 1)
    else
      var size := SizeAt(input, p + 1);
      match size.result
      case Failure(e) => Step(Failure(e), size.next)
      case Success(n) =>
        var elements := ElementsAt(input, size.next, if n < 0 then 0 else n);
        match elements.result
        case Failure(e) => Step(Failure(e), elements.next)
        case Success(es) => Step(Success(CommandOf(es)), elements.next)
  }

  /** One more element: `ElementsAt` unfolded once. */
  lemma ElementsStep(input: Bytes, p: nat, n: nat, es: seq<Bytes>, q: nat, v: Bytes, next: nat)
    requires p <= |input| && n > 0
    requires ElementsAt(input, p, n - 1) == Step(Success(es), q)
    requires BulkAt(input, q) == Step(Success(v), next)
    ensures ElementsAt(input, p, n) == Step(Success(es + [v]), next)
  {
  }

  /** A failing element ends `ElementsAt` with its error. */
  lemma ElementsStepFails(input: Bytes, p: nat, n: nat, es: seq<Bytes>, q: nat, e: Error, next: nat)
    requires p <= |input| && n > 0
    requires ElementsAt(input, p, n - 1) == Step(Success(es), q)
    requires BulkAt(input, q) == Step(Failure(e), next)
    ensures ElementsAt(input, p, n) == Step(Failure(e), next)
  {
  }

  /** Once an element fails, reading more elements changes nothing: the first
      failure is the outcome, with the position it left. */
  lemma {:induction false} ElementsFailureStays(input: Bytes, p: nat, m: nat, n: nat)
    requires p <= |input| && m <= n
    requires ElementsAt(input, p, m).result.Failure?
    ensures ElementsAt(input, p, n) == ElementsAt(input, p, m)
    decreases n - m
  {
    if m < n {
      ElementsFailureStays(input, p, m, n - 1);
    }
  }

  /** A size line that does not read fails the whole request with its error. */
  lemma ParseSizeFails(input: Bytes, p: nat, e: Error, next: nat)
    requires p < |input| && input[p] == STAR
    requires SizeAt(input, p + 1) == Step(Failure(e), next)
    ensures ParseAt(input, p) == Step(Failure(e), next)
  {
  }

  /** A whole request: `ParseAt` unfolded once. */
  lemma ParseStep(input: Bytes, p: nat, n: int, q: nat, es: seq<Bytes>, next: nat)
    requires p < |input| && input[p] == STAR
    requires SizeAt(input, p + 1) == Step(Success(n), q)
    requires ElementsAt(input, q, if n < 0 then 0 else n) == Step(Success(es), next)
    ensures ParseAt(input, p) == Step(Success(CommandOf(es)), next)
  {
  }

  /** A failing element fails the whole request with its error. */
  lemma ParseStepFails(input: Bytes, p: nat, n: nat, q: nat, e: Error, next: nat)
    requires p < |input| && input[p] == STAR
    requires SizeAt(input, p + 1) == Step(Success(n), q)
    requires ElementsAt(input, q, n) == Step(Failure(e), next)
    ensures ParseAt(input, p) == Step(Failure(e), next)
  {
  }

  /** Element order and count: with a size N of at least one, the name is
      element 0 and the arguments are elements 1..N-1; with N <= 0 the command
      is empty; a failing element fails the whole parse with its own error. */
  lemma ParseElements(input: Bytes, p: nat)
    requires p < |input| && input[p] == STAR
    requires SizeAt(input, p + 1).result.Success?
    ensures
      var size := SizeAt(input, p + 1);
      var n := size.result.value;
      var elements := ElementsAt(input, size.next, if n < 0 then 0 else n);
      var parsed := ParseAt(input, p);
      && (n <= 0 ==> parsed == Step(Success(Command([], [])), size.next))
      && (elements.result.Failure? ==> parsed.result == Failure(elements.result.error))
      && (n >= 1 && elements.result.Success? ==>
            && parsed.result.Success?
            && parsed.result.value.name == elements.result.value[0]
            && parsed.result.value.args == elements.result.value[1..]
            && |parsed.result.value.args| == n - 1
            && parsed.next == elements.next)
  {
  }

  /** The byte after the '\r' of a size line is skipped, not checked: any byte
      there gives the same outcome. */
  lemma SizeIgnoresLineFeed(input: Bytes, p: nat, x: byte)
    requires p <= |input|
    requires FindCR(input, p).Some? && FindCR(input, p).value + 1 < |input|
    ensures SizeAt(input[FindCR(input, p).value + 1 := x], p) == SizeAt(input, p)
  {
    var k := FindCR(input, p).value;
    var changed := input[k + 1 := x];
    assert changed[p..k] == input[p..k];
    FindCRAt(changed, p, k);
  }

  /** The two bytes after a bulk string's content are skipped, not checked. */
  lemma BulkIgnoresTrailer(input: Bytes, p: nat, x: byte, y: byte)
    requires p <= |input|
    requires BulkAt(input, p).result.Success?
    requires
      var size := SizeAt(input, p + 1);
      size.next + |BulkAt(input, p).result.value| + 2 <= |input|
    ensures
      var e := SizeAt(input, p + 1).next + |BulkAt(input, p).result.value|;
      BulkAt(input[e := x][e + 1 := y], p) == BulkAt(input, p)
  {
    var size := SizeAt(input, p + 1);
    var content := BulkAt(input, p).result.value;
    var e := size.next + |content|;
    var changed := input[e := x][e + 1 := y];
    var n, q := |content|, size.next;
    var k := FindCR(input, p + 1).value;
    assert k < e;
    FindCRAt(changed, p + 1, k);
    assert changed[p + 1..k] == input[p + 1..k];
    assert SizeAt(changed, p + 1) == Step(Success(n), q);
    assert changed[q..e] == input[q..e];
    BulkStep(input, p, n, q);
    BulkStep(changed, p, n, q);
    assert BulkAt(changed, p) == Step(Success(input[q..e]), Min(e + 2, |input|)) == BulkAt(input, p);
  }
}
