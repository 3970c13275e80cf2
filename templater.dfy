/**
 * The `VariableTemplater` class of src/agent.ts: fixed bindings built at
 * construction, a memo of compiled templates that `compile` fills in place,
 * and `render`, which applies the compiled template to the bindings.
 *
 * A compiled template is represented by its segments (the scan of the
 * template); applying it walks them in order and replaces each hole by what
 * the `replace` callback returns for it.
 */
module Templater {
  import opened Strings
  import opened Json
  import opened Template

  /**
   * The `replace` callback for one match: trim and split the key, then walk
   * the parts from `vars`, giving up with the match as soon as the current
   * value is not an object; finally `String(value ?? match)`.
   */
  method ReplaceMatch(vars: map<string, Value>, matched: string, key: string) returns (s: string)
    ensures s == Substitution(Obj(vars), matched, key)
  {
    var parts := Split(Trim(key), '.');
    var value: Option<Value> := Some(Obj(vars));
    for i := 0 to |parts|
      invariant Walk(Some(Obj(vars)), parts) == Walk(value, parts[i..])
    {
      assert parts[i..][1..] == parts[i + 1..];
      if value.Some? && IsObject(value.value) {
        value := Lookup(value.value, parts[i]);
      } else {
        return matched;
      }
    }
    assert parts[|parts|..] == [];
    if value.Some? && !value.value.Null? {
      s := ToText(value.value);
    } else {
      s := matched;
    }
  }

  /** The compiled function applied to `vars`: each segment's contribution, in order. */
  method Apply(vars: map<string, Value>, segs: seq<Segment>) returns (out: string)
    ensures out == Evaluate(Obj(vars), segs)
  {
    out := "";
    for i := 0 to |segs|
      invariant out == Evaluate(Obj(vars), segs[..i])
    {
      var piece: string;
      match segs[i] {
        case Lit(text) =>
          piece := text;
        case Hole(raw, key) =>
          piece := ReplaceMatch(vars, raw, key);
      }
      EvaluateAppend(Obj(vars), segs[..i], segs[i]);
      assert segs[..i + 1] == segs[..i] + [segs[i]];
      out := out + piece;
    }
    assert segs[..|segs|] == segs;
  }

  class VariableTemplater {
    /** The bindings; they are fixed at construction. */
    const variables: map<string, Value>
    /** Compiled templates, keyed by template text. */
    var cache: map<string, seq<Segment>>

    /** Every cached entry is the compilation of its key. */
    ghost predicate Valid()
      reads this
    {
      forall t :: t in cache ==> cache[t] == Scan(t)
    }

    /** `new VariableTemplater(metadata, additional)`, with the metadata already through `JSON.parse`. */
    constructor(metadata: Parse, additional: Option<map<string, map<string, string>>>)
      ensures variables == Bindings(metadata, additional)
      ensures cache == map[]
      ensures Valid()
    {
      variables := Bindings(metadata, additional);
      cache := map[];
    }

    /** `compile(template)`: the cached compilation if there is one, otherwise a fresh one that is cached. */
    method Compile(template: string) returns (segs: seq<Segment>)
      requires Valid()
      modifies this`cache
      ensures Valid()
      ensures segs == Scan(template)
      ensures cache == old(cache)[template := segs]
      ensures template in old(cache) ==> cache == old(cache)
    {
      if template in cache {
        segs := cache[template];
      } else {
        segs := Scan(template);
        cache := cache[template := segs];
      }
    }

    /** `render(template)`: compile, then apply to the bindings. */
    method Render(template: string) returns (out: string)
      requires Valid()
      modifies this`cache
      ensures Valid()
      ensures out == RenderText(variables, template)
      ensures cache == old(cache)[template := Scan(template)]
      ensures template in old(cache) ==> cache == old(cache)
    {
      var segs := Compile(template);
      out := Apply(variables, segs);
    }
  }

  /** Rendering a template twice adds it to the cache once and gives the same text both times. */
  method RenderTwice(vt: VariableTemplater, template: string) returns (first: string, second: string)
    requires vt.Valid()
    modifies vt`cache
    ensures first == second
    ensures template in vt.cache
    ensures vt.cache.Keys == old(vt.cache).Keys + {template}
  {
    first := vt.Render(template);
    var afterFirst := vt.cache;
    second := vt.Render(template);
    assert vt.cache == afterFirst;
  }
}
