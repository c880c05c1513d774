# RESP codec of a Redis clone, modelled in Dafny

This project models `app/resp.go` of a small Redis server written in Go: the
RESP2 request decoder (`RespParser.Parse`, `parseSize`, `parseBulkString`), the
reply writers (`OutputSimpleString`, `OutputNullSimpleString`, `OutputInteger`,
`OutputBulkStrings`, `OutputArray`) and the SET validator
(`ValidateSetCommand`).

- Go strings are byte strings, so every string is `Bytes`, a `seq` of
  integers in 0..255. Lengths count bytes.
- The decoder is stated twice.
  - `RespDecoder` holds pure functions of the whole input and a read position.
    Each returns a `Step`: the outcome and the position the reader is left at,
    including on failure.
  - `RespParser.Parser` is the reader as the source runs it. It is a class with
    the buffered input and a `pos` cursor. Its methods consume input step by
    step, and `Parse` has the source's element loop. `ReadByte`,
    `ReadBytesToCR`, `ParseSize`, `ParseBulkString` and `Parse` are each proved
    to return, and to leave `pos` at, what the matching `RespDecoder` function
    gives. `Read` and `Discard` state their result and new `pos` directly.
- Each writer is modelled as an append to the output written so far.
  - The straight-line writers are functions giving their bytes.
  - `OutputBulkStrings` and `OutputArray` are methods with the source's loop.
    Each is proved against a recursive function (`BulkStringsReply`,
    `ArrayReply`).
- `ValidateSetCommand` is a function.
  - The clock reading `now` is a parameter, in integer milliseconds.
  - Expiry `0` (`NoExpiry`) stands for Go's zero `time.Time`, which means the
    key does not expire.
- Integer text is Go's `%d` on the writing side (`Decimal.IntToDecimal`).
  On the reading side it is `strconv.ParseInt`/`Atoi`.
  - `Decimal.ParseInt` accepts an optional `+` or `-` followed by one or more
    decimal digits.
  - The two are proved to round-trip.
- `RoundTrip` proves properties of the writers and the decoder together.
  - `Parse` reads back exactly what `OutputArray` writes, whatever follows it.
  - Requests written back to back parse in turn.
  - A SET request written by a client is accepted with the expected key, value
    and expiry.

Modules: `Wrappers` (Option, Result), `Bytes`, `Seqs` (sequence reshaping
helpers), `Decimal`, `RespTypes`, `RespDecoder`, `RespParser`, `RespEncoder`,
`RoundTrip`, `SetValidator`.

## Model

| member | source | states |
|---|---|---|
| RespTypes.CommandOf | app/resp.go:36-53 | No elements give the empty command: name `[]` and no arguments. Otherwise the name followed by the arguments is exactly the element list, with one argument fewer than there are elements. |
| RespTypes.CommandOfAppend | app/resp.go:48-52 | The first decoded element becomes the name. Each later element is appended to the arguments, in order. |
| RespDecoder.ByteAt | app/resp.go:28 | Reading a byte advances by one when a byte is left. At the end of input it fails without moving. |
| RespDecoder.FindCR | app/resp.go:60 | `ReadBytes('\r')` stops at the first `\r` from the position on. If there is none, it reports that no `\r` follows. |
| RespDecoder.FindCRAt | app/resp.go:60 | A `\r` with none before it is the one the reader stops at. |
| RespDecoder.SizeAt | app/resp.go:59-71 | With no `\r` the size fails and the rest of the input is consumed. With a `\r`, the outcome is decided by the text before the first `\r`, in both directions. If `ParseInt` reads it, the size is that integer and exactly one more byte is skipped (at most to the end of input). If not, the size fails with `InvalidInteger` of that text, and the reader is left just after the `\r`. |
| RespDecoder.SizeIgnoresLineFeed | app/resp.go:69 | The byte after the size line's `\r` is not checked: any byte there gives the same outcome and position. |
| RespDecoder.BulkAt | app/resp.go:73-92 | At the end of input it fails with EndOfInput. A first byte other than `$` is rejected having consumed it. A success means: a `$`, a size line reading as the content's length, exactly that many content bytes, then the reader at most two bytes further. |
| RespDecoder.BulkStep | app/resp.go:83-91 | A `$`, a non-negative size `n` and `n` available bytes yield those bytes, with two more bytes skipped. |
| RespDecoder.BulkIgnoresTrailer | app/resp.go:90 | The two bytes after a bulk string's content are not checked: changing them changes neither outcome nor position. |
| RespDecoder.ElementsAt | app/resp.go:43-53 | Reading `n` elements either fails or yields exactly `n` strings, never moving past the end of input. |
| RespDecoder.ElementsStep | app/resp.go:43-53 | One more loop iteration appends the next bulk string to the elements read so far. |
| RespDecoder.ElementsStepFails | app/resp.go:44-47 | A failing bulk string ends the element loop with its own error and position. |
| RespDecoder.ElementsFailureStays | app/resp.go:44-47 | After a first failing element, asking for more elements changes nothing: the first failure is the outcome. |
| RespDecoder.ParseAt | app/resp.go:27-57 | At the end of input the parse fails with EndOfInput. A first byte other than `*` fails with NotAnArray, after consuming that byte. |
| RespDecoder.ParseSizeFails | app/resp.go:38-41 | A size line that does not read fails the request with the size's error and position. |
| RespDecoder.ParseStep | app/resp.go:27-57 | A `*`, a size `N` and `max(N, 0)` elements read make the command built from those elements. |
| RespDecoder.ParseStepFails | app/resp.go:44-47 | A failing element fails the whole request with its error, and no partial command is returned. |
| RespDecoder.ParseElements | app/resp.go:36-56 | With `N <= 0` the command is empty: name `[]`, no arguments. If an element fails, the parse fails with that error. With `N >= 1` the name is element 0, the arguments are elements 1..N-1 in order, and there are `N-1` of them. |
| RespParser.Parser.constructor | app/resp.go:21-25 | A new reader starts at position 0 of the stream. |
| RespParser.Parser.ReadByte | app/resp.go:28 | The method returns and advances exactly as `ByteAt` says. |
| RespParser.Parser.ReadBytesToCR | app/resp.go:60 | A scanning loop returns the bytes before the first `\r` and leaves the reader just after it. With no `\r` it returns nothing and the whole input is consumed. |
| RespParser.Parser.Discard | app/resp.go:69 | The reader skips `n` bytes, or fewer at the end of input. |
| RespParser.Parser.Read | app/resp.go:87-88 | Reading `n` bytes returns exactly the next `n` bytes when they are available. Otherwise it returns nothing and the rest is consumed. |
| RespParser.Parser.ParseSize | app/resp.go:59-71 | The result and the new position are those of `SizeAt`. |
| RespParser.Parser.ParseBulkString | app/resp.go:73-92 | The result and the new position are those of `BulkAt`. |
| RespParser.Parser.Parse | app/resp.go:27-57 | The loop over the elements returns, and leaves `pos` at, exactly what `ParseAt` gives: the command, or the first error. |
| Decimal.ParseInt | app/resp.go:65 | An integer reads only from a non-empty text starting with a digit or a sign. A negative value needs a leading `-`. |
| Decimal.NatToDecimal | app/resp.go:148 | `%d` of a count gives one or more digits with no leading zero, except for 0 itself. |
| Decimal.IntToDecimal | app/resp.go:144 | `%d` of an integer contains no CR or LF and starts with `-` exactly when the integer is negative. |
| Decimal.DigitsValueOfDecimal | app/resp.go:148 | The digits `%d` writes for `n` have the value `n`. |
| Decimal.ParseIntOfDecimal | app/resp.go:65 | The integer parser reads back exactly what `%d` writes, for every integer. |
| RespEncoder.OutputSimpleString | app/resp.go:135-137 | The reply is `+`, then exactly the text, then CRLF: three bytes longer than the text. |
| RespEncoder.OutputNullSimpleString | app/resp.go:139-141 | The reply is exactly the five bytes `$-1\r\n`. |
| RespEncoder.OutputInteger | app/resp.go:143-145 | The reply is `:`, the `%d` text of `i` and CRLF. The text between the `:` and the CRLF reads back as `i`. |
| RespEncoder.BulkStringsReply | app/resp.go:94-99 | What `OutputBulkStrings` writes is one `$` followed by each string's body. On a single string it is exactly that string's bulk string frame. |
| RespEncoder.ArrayReply | app/resp.go:147-152 | What `OutputArray` writes is `*`, the decimal element count and CRLF, then the elements' frames. With at least one element, the byte after the count line is the first frame's own `$`. |
| RespEncoder.OutputBulkStrings | app/resp.go:94-99 | A loop over the strings appends one `$`, then each string's `len\r\nbytes\r\n` in order, to the output. |
| RespEncoder.OutputArray | app/resp.go:147-152 | A loop appends the count line `*<n>\r\n`, then each element's frame as `OutputBulkStrings` writes it for that element alone. |
| RespEncoder.FramesStep | app/resp.go:149-151 | One more iteration of `OutputArray`'s loop adds exactly the bulk string of the next element. |
| RespEncoder.SingleBulkString | app/resp.go:94-99 | `OutputBulkStrings` of a single string writes a well-formed bulk string `$len\r\nbytes\r\n`. |
| RespEncoder.BulkFramesAppend | app/resp.go:149-151 | Framing is per element: the frames of `a + b` are those of `a` followed by those of `b`. |
| RespEncoder.BulkBodiesAppend | app/resp.go:96-98 | Each string's body is written independently of the others: the bodies of `a + b` are those of `a` followed by those of `b`. |
| RespEncoder.BulkBodiesFirst | app/resp.go:96-98 | The bodies of a non-empty run begin with the first string's body. |
| RespEncoder.FrameSpelled | app/resp.go:97 | A bulk string frame is `$`, the decimal byte length, CRLF, the bytes and CRLF. |
| RespEncoder.FramesAround | app/resp.go:149-151 | The frames of all elements are those before element `i`, then element `i`'s frame, then those after it. |
| RespEncoder.ArrayReplyFraming | app/resp.go:147-152 | `OutputArray` writes `*`, the count, CRLF, and then for each element `i` in order its `$`, byte length, CRLF, bytes and CRLF, between the frames before and after it. |
| RespEncoder.BulkStringsOneMarker | app/resp.go:94-99 | On two or more strings only the first frame carries a `$`. The byte starting the second frame is a digit of its length. |
| RoundTrip.SizeLineAt | app/resp.go:59-71 | A `%d` text followed by `\r` and any byte reads as that integer, and the reader is left after that byte. |
| RoundTrip.BulkAtFrame | app/resp.go:73-92 | A well-formed bulk string frame in the input reads back as its bytes, and the frame is consumed whole. |
| RoundTrip.ElementsOfFrames | app/resp.go:43-53 | Consecutive frames of a list of strings read back as that list, in order, consuming all of them. |
| RoundTrip.ParseOfArrayReply | app/resp.go:147-152 | What `OutputArray` writes, wherever it sits in the input, parses to the command made of its elements, consumed exactly. |
| RoundTrip.ParseRoundTrip | app/resp.go:27-57 | `Parse` of `OutputArray([name] + args)`, whatever follows, gives `Command{name, args}`. The reader stops right after the request. |
| RoundTrip.ParsePipelined | app/resp.go:27-57 | Two requests written back to back parse one after the other. The second starts exactly where the first ended. |
| RoundTrip.IntegerReplyReads | app/resp.go:143-145 | `OutputInteger(i)` is `:` followed by a line that the size reader reads back as `i`, ending at the end of the reply. |
| RoundTrip.NullReplyReads | app/resp.go:139-141 | The null reply is `$` and a size line of -1. It is five bytes long, and the bulk string decoder rejects it as a negative length. |
| RoundTrip.SimpleStringReads | app/resp.go:135-137 | For a text without `\r`, `OutputSimpleString` is `+`, exactly the text, and CRLF. The first `\r` is the one ending the line. |
| RoundTrip.BulkStringsSecondRejected | app/resp.go:94-99 | As written, on two or more strings `OutputBulkStrings` decodes one bulk string. The second frame is then refused as not a bulk string. |
| RoundTrip.BulkFramesDecode | app/resp.go:149-151 | Strings framed one by one, as `OutputArray` writes them, decode back into the strings in order. |
| RoundTrip.SetRequestAccepted | app/resp.go:118-127 | A client's `SET key value EX|PX n` request is decoded and validated. It yields the key, the value and expiry `now + n*1000` (EX) or `now + n` (PX). |
| RoundTrip.SetRequestWithoutExpiry | app/resp.go:114-117 | A client's `SET key value` request is decoded and validated into that key and value with no expiry. |
| SetValidator.ValidateSetCommand | app/resp.go:107-133 | The command is accepted exactly when: the name is `SET`; and there are 2 arguments, or there are 4 and the fourth is an integer and the third is `EX` or `PX`. The key and the value are arguments 0 and 1. With 2 arguments there is no expiry; otherwise expiry is now plus amount times 1000 (EX) or 1 (PX). Errors are checked in the source's order: name, then count, then amount, then unit. Any unit other than `EX` or `PX` fails with `InvalidExpiryUnit` of that unit. |
| SetValidator.SetWithExpiry | app/resp.go:118-127 | SET with a decimal amount and unit `EX` or `PX` gets expiry `now` plus the amount in milliseconds. |
| SetValidator.SetWithoutExpiry | app/resp.go:114-117 | SET with a key and a value only gets no expiry. |

## Left out

- `app/main.go` is not part of this model. It holds the TCP accept loop, a goroutine per connection, read deadlines and the `ping` substring reply: network I/O and concurrency.
- `slog.Debug` calls (app/resp.go:64, 89): logging only.
- `bufio` buffering is not modelled. The input is the complete byte sequence the connection delivers, and I/O errors are end of input.
- RespDecoder.BulkAt: a `Read` that finds fewer than `strLen` bytes left is a failure (`Truncated`). In Go, with the read error ignored, the short read leaves zero bytes in the buffer and the string is returned. `bufio.Reader.Read` returns only what is already in its buffer. So a bulk string longer than the 4096-byte buffer, or one whose bytes have not all arrived, comes back short in Go even though the stream holds the rest. Here the whole input is available, and such a string reads in full.
- RespDecoder.BulkAt: a negative bulk length is a failure (`NegativeLength`). In Go, `make` panics on it.
- Decimal.ParseInt: `strconv`'s range limits are not modelled. Integers are unbounded, so an amount or size that would overflow Go's `int` reads as a number here.
- SetValidator.ValidateSetCommand: `time.Now()` is the parameter `now`. Overflow of `time.Duration(num) * time.Second` is not modelled.
- SetValidator.ValidateSetCommand: an absolute expiry of exactly 0 cannot be told apart from "no expiry", as with Go's zero `time.Time` stand-in.
- Errors are modelled by kind and the value they report, not by their message text.
- Writer errors from `wr.Write` are ignored by the source, so every writer is an infallible append.
- `Parse` returns a `*Command` whose empty `Args` is Go's nil slice. Here it is the empty sequence.
- The documented wire format for a sequence of bulk strings gives each element its own `$<len>\r\n<bytes>\r\n` frame. The code writes a single `$` (see Findings). The model follows the code.

## Findings

| source | as written | input that shows it | evidently intended | confidence | as-written member | corrected member |
|---|---|---|---|---|---|---|
| app/resp.go:94-99 | `OutputBulkStrings` writes one `$` before the loop, and each iteration writes only `len\r\nbytes\r\n` | `["a", "b"]` is written as `$1\r\na\r\n1\r\nb\r\n`; the decoder reads `a`, then rejects `1` where a `$` must start the next bulk string | every string framed on its own as `$len\r\nbytes\r\n`, as `OutputArray` does by calling it with one string at a time | medium, not executed | RoundTrip.BulkStringsSecondRejected | RoundTrip.BulkFramesDecode |
