/**
  The typed accessors of a loaded configuration (configg.go).

  `Config.parsed` is the decoded key -> value map. `GetValue` models
  `getValue`: the destination's Go type picks a row of the coercion table,
  the stored value's kind picks a column, and the result is the final
  content of the destination together with the returned error. The four
  public getters start from their type's zero value, exactly as Go's named
  results do.

  Go's `strconv.ParseFloat` is not modelled; it is the parameter
  `parseFloat` of getValue and GetFloat, a partial function from text to a
  number. The other getters, like their Go counterparts, take only the key.
*/
module Configg {
  import opened Wrappers
  import opened Json
  import StrConv

  type FloatParser = string -> Option<real>

  datatype Config = Config(parsed: map<string, Raw>)

  /** The destination types the switch in getValue distinguishes. */
  datatype Target = TInt | TFloat | TString | TArray | TOther

  /** Content of the destination `*v`; its constructor is its Go type. */
  datatype Value =
    | IntV(i: int)
    | FloatV(x: real)
    | StringV(s: string)
    | ArrayV(items: seq<Raw>)
    | OtherV                  // any other type, a bool for instance

  datatype Error = NotFound(key: string) | Mismatch(key: string, target: Target)

  /** What getValue leaves behind: the destination and the returned error. */
  datatype Reply = Reply(dest: Value, err: Option<Error>)

  /** What a public getter returns: `(val, err)`. */
  datatype Got<T> = Got(val: T, err: Option<Error>)

  function TargetOf(v: Value): Target
  {
    match v
    case IntV(_) => TInt
    case FloatV(_) => TFloat
    case StringV(_) => TString
    case ArrayV(_) => TArray
    case OtherV => TOther
  }

  /** `x` truncated toward zero: the integer between 0 and x within distance < 1. */
  predicate TowardZero(x: real, n: int)
  {
    && (x >= 0.0 ==> n as real <= x < n as real + 1.0)
    && (x < 0.0 ==> n as real - 1.0 < x <= n as real)
  }

  /** Go's conversion `int(f)` of a float64, truncating toward zero. */
  function TruncateToInt(x: real): (n: int)
    ensures TowardZero(x, n)
    ensures (if n < 0 then -n else n) as real <= (if x < 0.0 then -x else x)
  {
    if x >= 0.0 then x.Floor else -((-x).Floor)
  }

  function TargetName(t: Target): string
  {
    match t
    case TInt => "int"
    case TFloat => "float"
    case TString => "string"
    case TArray => "array"
    case TOther => "other"
  }

  /** The error text getValue formats for each failure. */
  function Message(e: Error): (m: string)
    ensures e.NotFound? ==> |m| == 11 + |e.key| && m[..11] == "not found: " && m[11..] == e.key
    ensures e.Mismatch? ==> |m| > 18 + |e.key| && m[..18] == "type not matched: " && m[18..18 + |e.key|] == e.key
  {
    match e
    case NotFound(k) => "not found: " + k
    case Mismatch(k, t) => "type not matched: " + k + " would be " + TargetName(t)
  }

  /**
    The parser handed to getValue by the getters whose destination is not a
    float64; the switch never consults it for them.
  */
  const NoFloatParser: FloatParser := _ => None

  function Mismatched(k: string, dest: Value): Reply
  {
    Reply(dest, Some(Mismatch(k, TargetOf(dest))))
  }

  /**
    getValue: look the key up, then coerce the stored value into the
    destination's type. A failure leaves the destination as it was; a
    destination type outside the four the switch knows is left alone and
    no error is reported.
  */
  function GetValue(c: Config, k: string, dest: Value, parseFloat: FloatParser): (r: Reply)
    ensures TargetOf(r.dest) == TargetOf(dest)
    ensures r.err.Some? ==> r.dest == dest && r.err.value.key == k
    ensures r.err == Some(NotFound(k)) <==> k !in c.parsed
    ensures r.err.Some? && r.err.value.Mismatch? ==> r.err.value.target == TargetOf(dest) != TOther
    ensures TargetOf(dest) == TOther ==> r.dest == dest
    ensures k in c.parsed && TargetOf(dest) == TOther ==> r.err.None?
  {
    if k !in c.parsed then
      Reply(dest, Some(NotFound(k)))
    else
      var raw := c.parsed[k];
      match dest
      case IntV(_) =>
        (match raw
         case Int(n) => Reply(IntV(n), None)
         case Num(x) => Reply(IntV(TruncateToInt(x)), None)
         case Str(s) =>
           (match StrConv.Atoi(s)
            case Some(n) => Reply(IntV(n), None)
            case None => Mismatched(k, dest))
         case _ => Mismatched(k, dest))
      case FloatV(_) =>
        (match raw
         case Num(x) => Reply(FloatV(x), None)
         case Str(s) =>
           (match parseFloat(s)
            case Some(x) => Reply(FloatV(x), None)
            case None => Mismatched(k, dest))
         case _ => Mismatched(k, dest))
      case StringV(_) =>
        if raw.Str? then Reply(StringV(raw.s), None) else Mismatched(k, dest)
      case ArrayV(_) =>
        if raw.Arr? then Reply(ArrayV(raw.items), None) else Mismatched(k, dest)
      case OtherV =>
        Reply(dest, None)
  }

  /** GetString: only a text value is accepted, and it is returned as stored. */
  function GetString(c: Config, k: string): (r: Got<string>)
    ensures r.err.Some? ==> r.val == ""
    ensures k !in c.parsed ==> r.err == Some(NotFound(k))
    ensures r.err.None? <==> k in c.parsed && c.parsed[k].Str?
    ensures r.err.None? ==> c.parsed[k] == Str(r.val)
    ensures k in c.parsed && !c.parsed[k].Str? ==> r.err == Some(Mismatch(k, TString))
  {
    var reply := GetValue(c, k, StringV(""), NoFloatParser);
    Got(reply.dest.s, reply.err)
  }

  /**
    GetInt: a number is truncated toward zero, a text must be a decimal
    integer in the int64 range; every other kind is a mismatch.
  */
  function GetInt(c: Config, k: string): (r: Got<int>)
    ensures r.err.Some? ==> r.val == 0
    ensures k !in c.parsed ==> r.err == Some(NotFound(k))
    ensures k in c.parsed && c.parsed[k].Int? ==> r == Got(c.parsed[k].n, None)
    ensures k in c.parsed && c.parsed[k].Num? ==> r.err.None? && TowardZero(c.parsed[k].x, r.val)
    ensures k in c.parsed && c.parsed[k].Str? ==>
      (r.err.None? <==> StrConv.IsInteger(c.parsed[k].s) && StrConv.InInt64(StrConv.IntegerValue(c.parsed[k].s)))
    ensures k in c.parsed && c.parsed[k].Str? && r.err.None? ==> r.val == StrConv.IntegerValue(c.parsed[k].s)
    ensures k in c.parsed && !(c.parsed[k].Int? || c.parsed[k].Num? || c.parsed[k].Str?) ==>
      r.err == Some(Mismatch(k, TInt))
    ensures r.err.Some? && k in c.parsed ==> r.err == Some(Mismatch(k, TInt))
  {
    var reply := GetValue(c, k, IntV(0), NoFloatParser);
    Got(reply.dest.i, reply.err)
  }

  /**
    GetFloat: a number is returned as stored, a text goes through
    parseFloat; every other kind, the `int` kind included, is a mismatch.
  */
  function GetFloat(c: Config, k: string, parseFloat: FloatParser): (r: Got<real>)
    ensures r.err.Some? ==> r.val == 0.0
    ensures k !in c.parsed ==> r.err == Some(NotFound(k))
    ensures k in c.parsed && c.parsed[k].Num? ==> r == Got(c.parsed[k].x, None)
    ensures k in c.parsed && c.parsed[k].Str? ==>
      (r.err.None? <==> parseFloat(c.parsed[k].s).Some?)
    ensures k in c.parsed && c.parsed[k].Str? && r.err.None? ==> parseFloat(c.parsed[k].s) == Some(r.val)
    ensures k in c.parsed && !(c.parsed[k].Num? || c.parsed[k].Str?) ==>
      r.err == Some(Mismatch(k, TFloat))
    ensures r.err.Some? && k in c.parsed ==> r.err == Some(Mismatch(k, TFloat))
  {
    var reply := GetValue(c, k, FloatV(0.0), parseFloat);
    Got(reply.dest.x, reply.err)
  }

  /** GetArray: only an array is accepted, and the same elements come back in the same order. */
  function GetArray(c: Config, k: string): (r: Got<seq<Raw>>)
    ensures r.err.Some? ==> r.val == []
    ensures k !in c.parsed ==> r.err == Some(NotFound(k))
    ensures r.err.None? <==> k in c.parsed && c.parsed[k].Arr?
    ensures r.err.None? ==>
      && |r.val| == |c.parsed[k].items|
      && forall i | 0 <= i < |r.val| :: r.val[i] == c.parsed[k].items[i]
    ensures k in c.parsed && !c.parsed[k].Arr? ==> r.err == Some(Mismatch(k, TArray))
  {
    var reply := GetValue(c, k, ArrayV([]), NoFloatParser);
    Got(reply.dest.items, reply.err)
  }
}
