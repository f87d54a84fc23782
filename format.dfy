/** `formatValue`: a three-way dispatch on a string, a number or a boolean. */
module Format {

  /** The union `string | number | boolean`; a JavaScript number is a `real`. */
  datatype Value = Str(s: string) | Num(n: real) | Bool(b: bool)

  predicate IsAsciiLower(c: char) { 'a' <= c <= 'z' }

  predicate IsAsciiUpper(c: char) { 'A' <= c <= 'Z' }

  /** Upper-cases one ASCII letter; every other character is kept. */
  function UpperChar(c: char): (u: char)
    ensures IsAsciiLower(c) ==> IsAsciiUpper(u) && u as int == c as int - 32
    ensures !IsAsciiLower(c) ==> u == c
    ensures !IsAsciiLower(u)
  {
    if IsAsciiLower(c) then (c as int - 32) as char else c
  }

  /** `String.prototype.toUpperCase`, restricted to the ASCII letters:
      the result has the same length and upper-cases each position. */
  function ToUpperCase(s: string): (r: string)
    ensures |r| == |s|
    ensures forall i :: 0 <= i < |s| ==> r[i] == UpperChar(s[i])
    decreases |s|
  {
    if s == [] then [] else [UpperChar(s[0])] + ToUpperCase(s[1..])
  }

  /** Upper-casing leaves no lower-case ASCII letter and is idempotent. */
  lemma ToUpperCaseIdempotent(s: string)
    ensures forall i :: 0 <= i < |s| ==> !IsAsciiLower(ToUpperCase(s)[i])
    ensures ToUpperCase(ToUpperCase(s)) == ToUpperCase(s)
  {
  }

  /** Upper-casing commutes with concatenation. */
  lemma ToUpperCaseAppend(s: string, t: string)
    ensures ToUpperCase(s + t) == ToUpperCase(s) + ToUpperCase(t)
  {
  }

  /** Strings are upper-cased, numbers multiplied by ten and booleans negated;
      the kind of the value never changes. */
  function FormatValue(v: Value): (r: Value)
    ensures v.Str? <==> r.Str?
    ensures v.Num? <==> r.Num?
    ensures v.Bool? <==> r.Bool?
    ensures v.Str? ==> |r.s| == |v.s| && forall i :: 0 <= i < |v.s| ==> r.s[i] == UpperChar(v.s[i])
    ensures v.Num? ==> r.n == v.n * 10.0
    ensures v.Bool? ==> r.b == !v.b
  {
    match v
    case Str(s) => Str(ToUpperCase(s))
    case Num(n) => Num(n * 10.0)
    case Bool(b) => Bool(!b)
  }

  /** Formatting a boolean twice gives back the original boolean. */
  lemma FormatBoolInvolution(b: bool)
    ensures FormatValue(FormatValue(Bool(b))) == Bool(b)
  {
  }

  /** Formatting a string twice is formatting it once. */
  lemma FormatStringIdempotent(s: string)
    ensures FormatValue(FormatValue(Str(s))) == FormatValue(Str(s))
  {
    ToUpperCaseIdempotent(s);
  }
}
