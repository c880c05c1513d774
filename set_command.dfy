/** `ValidateSetCommand`: a decoded command turned into a typed SET, or an
    error. Times are integer milliseconds; the clock reading `now` is a
    parameter, and expiry 0 stands for the zero `time.Time`, "no expiry". */
module SetValidator {
  import opened Bytes
  import opened Wrappers
  import opened Decimal
  import opened RespTypes

  const NoExpiry: int := 0

  const SetName: Bytes := Ascii("SET")
  const Seconds: Bytes := Ascii("EX")
  const Milliseconds: Bytes := Ascii("PX")

  /** A validated SET: key, value and absolute expiry in milliseconds. */
  datatype SetCommand = SetCommand(key: Bytes, value: Bytes, expiry: int)

  /** Milliseconds per unit of a SET expiry amount. */
  function UnitMillis(unit: Bytes): nat
    requires unit == Seconds || unit == Milliseconds
  {
    if unit == Seconds then 1000 else 1
  }

  function ValidateSetCommand(c: Command, now: int): (r: Res<SetCommand>)
    // accepted exactly when the name, the count, the amount and the unit are right
    ensures r.Success? <==>
      && c.name == SetName
      && (|c.args| == 2
          || (&& |c.args| == 4
              && ParseInt(c.args[3]).Some?
              && (c.args[2] == Seconds || c.args[2] == Milliseconds)))
    ensures r.Success? ==> r.value.key == c.args[0] && r.value.value == c.args[1]
    ensures r.Success? && |c.args| == 2 ==> r.value.expiry == NoExpiry
    ensures r.Success? && |c.args| == 4 ==>
      r.value.expiry == now + ParseInt(c.args[3]).value * UnitMillis(c.args[2])
    // which error, checked in this order
    ensures c.name != SetName ==> r == Failure(NotSet)
    ensures c.name == SetName && |c.args| != 2 && |c.args| != 4 ==>
      r == Failure(WrongArgumentCount(|c.args|))
    ensures c.name == SetName && |c.args| == 4 && ParseInt(c.args[3]).None? ==>
      r == Failure(InvalidInteger(c.args[3]))
    ensures && c.name == SetName && |c.args| == 4 && ParseInt(c.args[3]).Some?
            && c.args[2] != Seconds && c.args[2] != Milliseconds ==>
      r == Failure(InvalidExpiryUnit(c.args[2]))
    ensures r.Failure? && r.error.InvalidExpiryUnit? ==>
      |c.args| == 4 && ParseInt(c.args[3]).Some? && r.error.unit == c.args[2]
  {
    if c.name != SetName then Failure(NotSet)
    else if !(|c.args| == 2 || |c.args| == 4) then Failure(WrongArgumentCount(|c.args|))
    else
      var key, value := c.args[0], c.args[1];
      if |c.args| == 2 then Success(SetCommand(key, value, NoExpiry))
      else
        match ParseInt(c.args[3])
        case None => Failure(InvalidInteger(c.args[3]))
        case Some(num) =>
          if c.args[2] == Seconds then Success(SetCommand(key, value, now + num * 1000))
          else if c.args[2] == Milliseconds then Success(SetCommand(key, value, now + num))
          else Failure(InvalidExpiryUnit(c.args[2]))
  }

  /** A SET with an amount written in decimal, as a client sends it, is
      accepted with the expiry that amount of the unit after `now`. */
  lemma SetWithExpiry(key: Bytes, value: Bytes, unit: Bytes, amount: int, now: int)
    requires unit == Seconds || unit == Milliseconds
    ensures ValidateSetCommand(Command(SetName, [key, value, unit, IntToDecimal(amount)]), now)
      == Success(SetCommand(key, value, now + amount * UnitMillis(unit)))
  {
    ParseIntOfDecimal(amount);
  }

  /** A SET of just a key and a value is accepted with no expiry. */
  lemma SetWithoutExpiry(key: Bytes, value: Bytes, now: int)
    ensures ValidateSetCommand(Command(SetName, [key, value]), now)
      == Success(SetCommand(key, value, NoExpiry))
  {
  }
}
