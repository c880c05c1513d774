/** The values the RESP codec produces: a decoded command and the ways decoding fails. */
module RespTypes {
  import opened Bytes
  import opened Wrappers
  import opened Seqs

  /** A request: element 0 of the array is the name, the rest are the arguments. */
  datatype Command = Command(name: Bytes, args: seq<Bytes>)

  /** Each error return of app/resp.go, with the value it reports. */
  datatype Error =
    | EndOfInput                     // ReadByte found no byte
    | NotAnArray(got: byte)          // first byte of a request is not '*'
    | MissingSizeTerminator          // no '\r' after a size field
    | InvalidInteger(text: Bytes)    // a size or a SET amount that does not parse
    | NotABulkString(got: byte)      // an element does not start with '$'
    | NegativeLength(length: int)    // a bulk length below zero (Go's make panics)
    | Truncated(wanted: nat)         // fewer bytes left than the bulk length
    | NotSet                         // the command name is not "SET"
    | WrongArgumentCount(count: nat) // SET with neither 2 nor 4 arguments
    | InvalidExpiryUnit(unit: Bytes) // SET's third argument is neither "EX" nor "PX"

  type Res<T> = Result<T, Error>

  /** One decoding step on an input: its outcome and the read position after it.
      The position is given on failure too: that is what the reader has consumed. */
  datatype Step<T> = Step(result: Res<T>, next: nat)

  /** The command built from the decoded elements, as `Parse` fills it in. */
  function CommandOf(elements: seq<Bytes>): (c: Command)
    ensures elements == [] ==> c == Command([], [])
    ensures elements != [] ==> |c.args| == |elements| - 1 && [c.name] + c.args == elements
  {
    if elements == [] then Command([], [])
    else
      SplitFirst(elements);
      Command(elements[0], elements[1..])
  }

  /** One more element: the first becomes the name, the later ones are appended to the arguments. */
  lemma CommandOfAppend(elements: seq<Bytes>, v: Bytes)
    ensures CommandOf(elements + [v]) ==
      if elements == [] then Command(v, [])
      else Command(CommandOf(elements).name, CommandOf(elements).args + [v])
  {
    if elements != [] {
      TailAppend(elements, v);
    }
  }
}
