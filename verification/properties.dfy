/**
  Properties of the coercion table that relate several calls, several
  getters, or a getter and the conversions it relies on.
*/
module ConfiggProperties {
  import opened Wrappers
  import opened Json
  import StrConv
  import opened Configg

  /** A missing key is reported as such, naming the key, by every getter and for every destination. */
  lemma MissingKeyNotFound(c: Config, k: string, parseFloat: FloatParser, dest: Value)
    requires k !in c.parsed
    ensures GetValue(c, k, dest, parseFloat) == Reply(dest, Some(NotFound(k)))
    ensures GetString(c, k) == Got("", Some(NotFound(k)))
    ensures GetInt(c, k) == Got(0, Some(NotFound(k)))
    ensures GetFloat(c, k, parseFloat) == Got(0.0, Some(NotFound(k)))
    ensures GetArray(c, k) == Got([], Some(NotFound(k)))
  {
  }

  /** Truncation toward zero names exactly one integer. */
  lemma TowardZeroUnique(x: real, a: int, b: int)
    requires TowardZero(x, a) && TowardZero(x, b)
    ensures a == b
  {
  }

  /** A whole-valued number such as 2.0 comes back from GetInt exactly. */
  lemma WholeNumberExact(c: Config, k: string, n: int)
    requires k in c.parsed && c.parsed[k] == Num(n as real)
    ensures GetInt(c, k) == Got(n, None)
  {
  }

  /** Any int64 stored as its decimal text is read back by GetInt. */
  lemma IntTextRoundTrip(c: Config, k: string, n: int)
    requires StrConv.InInt64(n)
    requires k in c.parsed && c.parsed[k] == Str(StrConv.Itoa(n))
    ensures GetInt(c, k) == Got(n, None)
  {
    StrConv.AtoiItoa(n);
  }

  /**
    On values the JSON decoder can produce, GetInt and GetFloat agree on
    numbers: GetInt is GetFloat truncated toward zero. (An `Int` value
    would break this, since GetFloat has no arm for it.)
  */
  lemma DecodedNumbersAgree(c: Config, k: string, parseFloat: FloatParser)
    requires k in c.parsed && Decoded(c.parsed[k]) && !c.parsed[k].Str?
    ensures GetFloat(c, k, parseFloat).err.None? <==> GetInt(c, k).err.None?
    ensures GetFloat(c, k, parseFloat).err.None? ==>
      GetInt(c, k).val == TruncateToInt(GetFloat(c, k, parseFloat).val)
  {
  }

  /** The float parser matters only to a float destination. */
  lemma ParserOnlyForFloat(c: Config, k: string, dest: Value, p1: FloatParser, p2: FloatParser)
    requires TargetOf(dest) != TFloat
    ensures GetValue(c, k, dest, p1) == GetValue(c, k, dest, p2)
  {
  }

  /**
    A lookup reads nothing but the entry under its own key: two documents
    that agree on that key give the same reply, so adding or replacing
    another key never changes it, and a repeated call repeats its answer.
  */
  lemma GetValueLocal(c1: Config, c2: Config, k: string, dest: Value, parseFloat: FloatParser)
    requires k in c1.parsed <==> k in c2.parsed
    requires k in c1.parsed ==> c1.parsed[k] == c2.parsed[k]
    ensures GetValue(c1, k, dest, parseFloat) == GetValue(c2, k, dest, parseFloat)
  {
  }

  lemma OtherKeyUpdateInvisible(c: Config, k: string, k': string, v: Raw, dest: Value, parseFloat: FloatParser)
    requires k != k'
    ensures GetValue(Config(c.parsed[k' := v]), k, dest, parseFloat) == GetValue(c, k, dest, parseFloat)
  {
  }

  lemma LastTwo(a: string, b: string)
    requires |b| >= 2
    ensures (a + b)[|a + b| - 1] == b[|b| - 1] && (a + b)[|a + b| - 2] == b[|b| - 2]
  {
  }

  /** The last two letters of a target's name already tell the targets apart. */
  lemma TargetNameTail(t1: Target, t2: Target)
    requires var n1, n2 := TargetName(t1), TargetName(t2);
      n1[|n1| - 1] == n2[|n2| - 1] && n1[|n1| - 2] == n2[|n2| - 2]
    ensures t1 == t2
  {
  }

  /** The first letter of a message tells the two kinds of error apart. */
  lemma MessageHead(e: Error)
    ensures |Message(e)| > 0 && Message(e)[0] == if e.NotFound? then 'n' else 't'
  {
  }

  /** Distinct errors print distinct messages: the text identifies the key and the target. */
  lemma MessageInjective(e1: Error, e2: Error)
    requires Message(e1) == Message(e2)
    ensures e1 == e2
  {
    var m := Message(e1);
    MessageHead(e1);
    MessageHead(e2);
    assert e1.NotFound? <==> e2.NotFound?;
    if e1.NotFound? {
      assert e1.key == m[11..] == e2.key;
    } else {
      var n1, n2 := TargetName(e1.target), TargetName(e2.target);
      LastTwo("type not matched: " + e1.key + " would be ", n1);
      LastTwo("type not matched: " + e2.key + " would be ", n2);
      TargetNameTail(e1.target, e2.target);
      assert |e1.key| == |e2.key|;
      assert e1.key == m[18..18 + |e1.key|] == e2.key;
    }
  }

  /** The first scenario of configg_test.go, with JSON numbers decoded to float64. */
  lemma BasicScenario(parseFloat: FloatParser)
    ensures var c := Config(map[
      "intParam" := Num(1.0), "floatParam" := Num(1.2), "stringParam" := Str("hello"),
      "boolParam" := Str("true"), "arrayParam" := Arr([Str("a"), Str("b"), Str("c")])]);
      && GetInt(c, "intParam") == Got(1, None)
      && GetFloat(c, "floatParam", parseFloat) == Got(1.2, None)
      && GetString(c, "stringParam") == Got("hello", None)
      && GetArray(c, "arrayParam") == Got([Str("a"), Str("b"), Str("c")], None)
      && GetValue(c, "boolParam", OtherV, parseFloat) == Reply(OtherV, None)
      && GetInt(c, "boolParam") == Got(0, Some(Mismatch("boolParam", TInt)))
  {
  }

  /** The second scenario of configg_test.go: 2.0 and "3" as ints, 1 and "3.1" as floats. */
  lemma FlexibilityScenario(parseFloat: FloatParser)
    requires parseFloat("3.1") == Some(3.1)
    ensures var c := Config(map[
      "i1" := Num(1.0), "i2" := Num(2.0), "i3" := Str("3"),
      "f1" := Num(1.0), "f2" := Num(2.1), "f3" := Str("3.1")]);
      && GetInt(c, "i1") == Got(1, None)
      && GetInt(c, "i2") == Got(2, None)
      && GetInt(c, "i3") == Got(3, None)
      && GetFloat(c, "f1", parseFloat) == Got(1.0, None)
      && GetFloat(c, "f2", parseFloat) == Got(2.1, None)
      && GetFloat(c, "f3", parseFloat) == Got(3.1, None)
      && GetInt(c, "f3") == Got(0, Some(Mismatch("f3", TInt)))
  {
  }

  /** Truncation goes toward zero on both sides: 2.9 gives 2 and -2.9 gives -2. */
  lemma TruncationExamples()
    ensures TruncateToInt(2.9) == 2 && TruncateToInt(-2.9) == -2
  {
  }
}
