/**
 * The JavaScript values the templater walks through once job metadata has been
 * parsed, with the two operations it applies to them: property access
 * `value[part]` and the coercion `String(value)`.
 */
module Json {
  import opened Strings

  datatype Option<T> = None | Some(value: T)

  /**
   * A value reachable from the bindings. `Obj` and `Arr` are exactly the values
   * with `typeof v === 'object' && v !== null`. `Other` stands for a number or
   * a boolean and carries the text `String()` gives it.
   */
  datatype Value =
    | Obj(fields: map<string, Value>)
    | Arr(items: seq<Value>)
    | Str(s: string)
    | Other(text: string)
    | Null

  /** `typeof v === 'object' && v !== null` */
  predicate IsObject(v: Value) {
    v.Obj? || v.Arr?
  }

  function Digit(d: nat): (c: char)
    requires d < 10
    ensures '0' <= c <= '9'
  {
    ('0' as int + d) as char
  }

  /** The canonical decimal text of a natural number. */
  function NatText(n: nat): (s: string)
    ensures |s| >= 1
    ensures forall i :: 0 <= i < |s| ==> '0' <= s[i] <= '9'
    ensures (s[0] == '0') == (n == 0)
  {
    if n < 10 then [Digit(n)] else NatText(n / 10) + [Digit(n % 10)]
  }

  /** The number a string of decimal digits denotes. */
  function DecimalValue(s: string): nat
    requires forall i :: 0 <= i < |s| ==> '0' <= s[i] <= '9'
  {
    if s == [] then 0
    else DecimalValue(s[..|s| - 1]) * 10 + (s[|s| - 1] as int - '0' as int)
  }

  /** A property name that is an array index: digits, with no leading zero except "0" itself. */
  predicate IsCanonicalIndex(s: string) {
    && |s| >= 1
    && (forall i :: 0 <= i < |s| ==> '0' <= s[i] <= '9')
    && (s[0] != '0' || |s| == 1)
  }

  /** Reading the decimal text of `n` gives back `n`. */
  lemma {:induction false} DecimalValueOfNatText(n: nat)
    ensures DecimalValue(NatText(n)) == n
  {
    var s := NatText(n);
    if n >= 10 {
      DecimalValueOfNatText(n / 10);
      assert s[..|s| - 1] == NatText(n / 10);
    }
  }

  /**
   * `(v as Record<string, unknown>)[key]` on an object or array; `None` is
   * `undefined`. Only own properties are seen: an object's keys, an array's
   * indices and its `length`.
   */
  function Lookup(v: Value, key: string): (r: Option<Value>)
    requires IsObject(v)
    ensures v.Obj? ==> (r.Some? <==> key in v.fields)
    ensures v.Obj? && key in v.fields ==> r == Some(v.fields[key])
  {
    match v
    case Obj(fields) => if key in fields then Some(fields[key]) else None
    case Arr(items) =>
      if IsCanonicalIndex(key) && DecimalValue(key) < |items| then Some(items[DecimalValue(key)])
      else if key == "length" then Some(Other(NatText(|items|)))
      else None
  }

  /** Every element of an array is found under the decimal text of its index. */
  lemma ArrayIndexLookup(items: seq<Value>, i: nat)
    requires i < |items|
    ensures Lookup(Arr(items), NatText(i)) == Some(items[i])
  {
    DecimalValueOfNatText(i);
  }

  /** An array has no property outside its indices and `length`. */
  lemma ArrayLookupMiss(items: seq<Value>, key: string)
    requires key != "length"
    requires forall i :: 0 <= i < |items| ==> key != NatText(i)
    ensures Lookup(Arr(items), key) == None
  {
    if IsCanonicalIndex(key) && DecimalValue(key) < |items| {
      NatTextOfDecimalValue(key);
      assert false;
    }
  }

  lemma DivModTen(q: nat, d: nat)
    requires d < 10
    ensures (q * 10 + d) / 10 == q && (q * 10 + d) % 10 == d
  {
  }

  /** A canonical index is the decimal text of the number it denotes. */
  lemma {:induction false} NatTextOfDecimalValue(s: string)
    requires IsCanonicalIndex(s)
    ensures NatText(DecimalValue(s)) == s
  {
    if |s| > 1 {
      var p := s[..|s| - 1];
      assert IsCanonicalIndex(p) by {
        assert p[0] == s[0];
      }
      NatTextOfDecimalValue(p);
      var n := DecimalValue(s);
      var last := s[|s| - 1] as int - '0' as int;
      assert n == DecimalValue(p) * 10 + last;
      assert DecimalValue(p) >= 1 by {
        assert NatText(DecimalValue(p))[0] != '0';
      }
      DivModTen(DecimalValue(p), last);
      assert s == p + [s[|s| - 1]];
    }
  }

  /**
   * `String(v)`. A plain object prints as "[object Object]"; an array prints as
   * its elements' strings joined by commas, a null element as the empty string.
   */
  function ToText(v: Value): string {
    match v
    case Obj(_) => "[object Object]"
    case Arr(items) =>
      Join(seq(|items|, i requires 0 <= i < |items| => if items[i].Null? then "" else ToText(items[i])), ",")
    case Str(s) => s
    case Other(text) => text
    case Null => "null"
  }
}
