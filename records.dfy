/**
 * Node status records as the PuppetDB `/v3/nodes/<name>` endpoint returns
 * them once decoded: string-keyed hashes of JSON values, and the few Ruby
 * conversions the action applies to those values.
 */
module Records {
  import opened RubyText

  /**
   * A decoded JSON value. `Other` stands for a float, array or object and
   * carries the text Ruby's `to_s` gives for it.
   */
  datatype Value = Null | Bool(b: bool) | Str(s: string) | Int(i: int) | Other(text: string)

  /** A decoded status hash; keys absent from the map are absent from the hash. */
  type Record = map<string, Value>

  /** `status[key]`: a missing key reads as `nil`. */
  function Get(r: Record, key: string): (v: Value)
    ensures v != Null ==> key in r && r[key] == v
  {
    if key in r then r[key] else Null
  }

  /**
   * Ruby truthiness: everything except `nil` and `false`. Unlike many
   * languages, Ruby counts the empty string and 0 as true.
   */
  predicate Truthy(v: Value)
    ensures v.Str? || v.Int? || v.Other? || v == Bool(true) ==> Truthy(v)
    ensures v.Null? || v == Bool(false) ==> !Truthy(v)
  {
    !(v.Null? || v == Bool(false))
  }

  /** A field counts as absent exactly when the key is missing or holds `nil` or `false`. */
  lemma FieldAbsent(r: Record, key: string)
    ensures !Truthy(Get(r, key)) <==> (key !in r || r[key] == Null || r[key] == Bool(false))
  {
  }

  /** `to_s`, as string interpolation and `Array#join` apply it (`nil` becomes ""). */
  function ToS(v: Value): (s: string)
    ensures v.Null? ==> s == ""
    ensures v.Str? ==> s == v.s
    ensures v.Int? && v.i >= 0 ==> (forall k :: 0 <= k < |s| ==> '0' <= s[k] <= '9') && DigitsValue(s) == v.i
    ensures v.Int? && v.i < 0 ==> |s| > 1 && s[0] == '-'
                                  && (forall k :: 1 <= k < |s| ==> '0' <= s[k] <= '9') && DigitsValue(s[1..]) == -v.i
  {
    match v
    case Null => ""
    case Bool(b) => if b then "true" else "false"
    case Str(s) => s
    case Int(i) => Decimal(i)
    case Other(text) => text
  }

  /**
   * The rest of `to_s`: integers are written without leading zeros (0 is
   * "0"), booleans as "true" or "false", and any other value as its own text.
   */
  lemma ToSText(v: Value)
    ensures v.Int? && v.i == 0 ==> ToS(v) == "0"
    ensures v.Int? && v.i > 0 ==> ToS(v)[0] != '0'
    ensures v.Int? && v.i < 0 ==> ToS(v)[1] != '0'
    ensures v.Bool? ==> ToS(v) == (if v.b then "true" else "false")
    ensures v.Other? ==> ToS(v) == v.text
  {
  }

  /** The hash `{'name' => node}` built for a node the service does not know. */
  function NotFoundRecord(node: string): (r: Record)
    ensures r.Keys == {"name"}
    ensures Get(r, "name") == Str(node) && ToS(Get(r, "name")) == node
  {
    map["name" := Str(node)]
  }
}
