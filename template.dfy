/**
 * The meaning of `VariableTemplater` (src/agent.ts) as pure functions: how the
 * bindings are built from the job metadata and the extra namespaces, how the
 * global regular expression `/{{([^}]+)}}/g` cuts a template into literal text
 * and placeholders, and what `String.prototype.replace` with the lookup
 * callback turns each placeholder into.
 */
module Template {
  import opened Strings
  import opened Json

  // ---------------------------------------------------------------------------
  // Bindings
  // ---------------------------------------------------------------------------

  /** What `JSON.parse(metadata)` produced: a value, or a thrown syntax error. */
  datatype Parse = Parsed(value: Value) | SyntaxError

  /** The metadata namespace, and whether "Job metadata is not a JSON dict" was logged. */
  datatype Metadata = Metadata(value: Value, warned: bool)

  /** `parseMetadata`: keep a parsed object or array, otherwise fall back to `{}`. */
  function ParseMetadata(p: Parse): (m: Metadata)
    ensures IsObject(m.value)
    ensures p.Parsed? && IsObject(p.value) ==> m.value == p.value && !m.warned
    ensures !(p.Parsed? && IsObject(p.value)) ==> m.value == Obj(map[])
    ensures m.warned <==> p.Parsed? && !IsObject(p.value)
  {
    match p
    case SyntaxError => Metadata(Obj(map[]), false)
    case Parsed(v) => if IsObject(v) then Metadata(v, false) else Metadata(Obj(map[]), true)
  }

  /** A `Record<string, string>` namespace such as `process.env`. */
  function Namespace(env: map<string, string>): (v: Value)
    ensures v.Obj? && v.fields.Keys == env.Keys
    ensures forall k :: k in env ==> v.fields[k] == Str(env[k])
  {
    Obj(map k | k in env :: Str(env[k]))
  }

  /**
   * The templater's `variables`: `{ metadata: parseMetadata(metadata) }`, with
   * `{ ...variables, ...additional }` applied when extra namespaces are given.
   */
  function Bindings(p: Parse, additional: Option<map<string, map<string, string>>>): (b: map<string, Value>)
    ensures additional.None? ==> b == map["metadata" := ParseMetadata(p).value]
    ensures additional.Some? ==> b.Keys == {"metadata"} + additional.value.Keys
    ensures additional.Some? ==> forall ns :: ns in additional.value ==> b[ns] == Namespace(additional.value[ns])
    ensures additional.Some? && "metadata" !in additional.value ==> b["metadata"] == ParseMetadata(p).value
  {
    var base := map["metadata" := ParseMetadata(p).value];
    match additional
    case None => base
    case Some(extra) => base + map ns | ns in extra :: Namespace(extra[ns])
  }

  // ---------------------------------------------------------------------------
  // Scanning for placeholders
  // ---------------------------------------------------------------------------

  /** The end of the longest run of characters other than '}' that starts at `i`. */
  function BraceFreeRun(t: string, i: nat): (j: nat)
    requires i <= |t|
    ensures i <= j <= |t|
    ensures forall k :: i <= k < j ==> t[k] != '}'
    ensures j < |t| ==> t[j] == '}'
    decreases |t| - i
  {
    if i == |t| || t[i] == '}' then i else BraceFreeRun(t, i + 1)
  }

  /**
   * The length of the match of `/{{([^}]+)}}/` that starts at the first
   * character of `t`, if there is one. `[^}]+` is greedy and cannot end on a
   * '}', so the only candidate is the longest brace-free run after "{{".
   */
  function MatchLen(t: string): (r: Option<nat>)
    ensures r.Some? ==> 5 <= r.value <= |t|
    ensures r.Some? ==> t[..2] == "{{" && t[r.value - 2..r.value] == "}}"
    ensures r.Some? ==> '}' !in t[2..r.value - 2]
  {
    if |t| >= 2 && t[0] == '{' && t[1] == '{' then
      var j := BraceFreeRun(t, 2);
      if j > 2 && j + 2 <= |t| && t[j + 1] == '}' then
        assert forall k :: 0 <= k < j - 2 ==> t[2..j][k] != '}';
        Some(j + 2)
      else None
    else None
  }

  /** Conversely, "{{" + key + "}}" is matched, whatever follows, when the key is non-empty and brace-free. */
  lemma MatchLenOf(key: string, rest: string)
    requires |key| >= 1 && '}' !in key
    ensures MatchLen("{{" + key + "}}" + rest) == Some(|key| + 4)
  {
    var t := "{{" + key + "}}" + rest;
    var j := BraceFreeRun(t, 2);
    forall k | 2 <= k < 2 + |key|
      ensures t[k] != '}'
    {
      assert t[k] == key[k - 2];
    }
    assert t[2 + |key|] == '}';
    assert t[3 + |key|] == '}';
  }

  /** True when some position of `t` starts a match. */
  predicate HasMatch(t: string) {
    exists p :: 0 <= p < |t| && MatchLen(t[p..]).Some?
  }

  /** A piece of a scanned template: literal text, or a match with its capture group. */
  datatype Segment = Lit(text: string) | Hole(raw: string, key: string)

  /** What the segment was in the template. */
  function SourceText(seg: Segment): string {
    match seg
    case Lit(text) => text
    case Hole(raw, _) => raw
  }

  /** The template text the segments were cut from. */
  function Flatten(segs: seq<Segment>): string {
    if segs == [] then "" else SourceText(segs[0]) + Flatten(segs[1..])
  }

  /** A hole is a whole match: "{{", a non-empty key without '}', "}}". */
  predicate WellFormed(seg: Segment) {
    seg.Hole? ==> |seg.key| >= 1 && '}' !in seg.key && seg.raw == Placeholder(seg.key)
  }

  predicate AllWellFormed(segs: seq<Segment>) {
    forall i :: 0 <= i < |segs| ==> WellFormed(segs[i])
  }

  predicate NoHoles(segs: seq<Segment>) {
    forall i :: 0 <= i < |segs| ==> segs[i].Lit?
  }

  /** Puts one unmatched character in front of the segments, merging it into a leading literal. */
  function PrependChar(c: char, segs: seq<Segment>): (r: seq<Segment>)
    ensures Flatten(r) == [c] + Flatten(segs)
    ensures AllWellFormed(segs) ==> AllWellFormed(r)
    ensures NoHoles(r) <==> NoHoles(segs)
  {
    if segs != [] && segs[0].Lit? then
      var r := [Lit([c] + segs[0].text)] + segs[1..];
      assert r[1..] == segs[1..];
      assert NoHoles(segs) <== NoHoles(r) by {
        if NoHoles(r) {
          forall i | 0 <= i < |segs| ensures segs[i].Lit? {
            if i > 0 { assert segs[i] == r[i]; }
          }
        }
      }
      r
    else
      var r := [Lit([c])] + segs;
      assert r[1..] == segs;
      assert segs != [] ==> r[1] == segs[0];
      r
  }

  /**
   * The matches `replace` visits, in order, with the text between them: the
   * scan tries every position from the left and resumes after each match.
   */
  function Scan(t: string): seq<Segment>
    decreases |t|
  {
    if t == [] then []
    else
      match MatchLen(t)
      case Some(n) => [Hole(t[..n], t[2..n - 2])] + Scan(t[n..])
      case None => PrependChar(t[0], Scan(t[1..]))
  }

  /** The segments cover the template exactly: literal text and matched text, in order. */
  lemma {:induction false} ScanCoversTemplate(t: string)
    ensures Flatten(Scan(t)) == t
    decreases |t|
  {
    if t != [] {
      match MatchLen(t)
      case Some(n) =>
        ScanCoversTemplate(t[n..]);
        var segs := Scan(t);
        assert segs[1..] == Scan(t[n..]);
        assert t == t[..n] + t[n..];
      case None =>
        ScanCoversTemplate(t[1..]);
        assert t == [t[0]] + t[1..];
    }
  }

  /** Every hole of a scan is a whole match of `/{{([^}]+)}}/` with its capture group. */
  lemma {:induction false} ScanHolesAreMatches(t: string)
    ensures AllWellFormed(Scan(t))
    decreases |t|
  {
    if t != [] {
      match MatchLen(t)
      case Some(n) =>
        ScanHolesAreMatches(t[n..]);
        var segs := Scan(t);
        assert t[..n] == t[..2] + t[2..n - 2] + t[n - 2..n];
        assert WellFormed(segs[0]);
        forall i | 1 <= i < |segs| ensures WellFormed(segs[i]) {
          assert segs[i] == Scan(t[n..])[i - 1];
        }
      case None =>
        ScanHolesAreMatches(t[1..]);
    }
  }

  /** A template yields a placeholder exactly when some position of it starts a match. */
  lemma {:induction false} ScanFindsHoleIffMatch(t: string)
    ensures NoHoles(Scan(t)) <==> !HasMatch(t)
    decreases |t|
  {
    if t != [] {
      match MatchLen(t)
      case Some(n) =>
        assert Scan(t)[0].Hole?;
        assert t[0..] == t;
      case None =>
        ScanFindsHoleIffMatch(t[1..]);
        if HasMatch(t) {
          var p :| 0 <= p < |t| && MatchLen(t[p..]).Some?;
          assert p != 0 by { assert t[0..] == t; }
          assert t[1..][p - 1..] == t[p..];
        }
        if HasMatch(t[1..]) {
          var q :| 0 <= q < |t[1..]| && MatchLen(t[1..][q..]).Some?;
          assert t[1..][q..] == t[q + 1..];
        }
    }
  }

  /** A template without a '{' has no match. */
  lemma NoBraceNoMatch(t: string)
    requires '{' !in t
    ensures !HasMatch(t)
  {
    forall p | 0 <= p < |t|
      ensures MatchLen(t[p..]).None?
    {
      assert t[p..][0] == t[p];
    }
  }

  // ---------------------------------------------------------------------------
  // Resolving a placeholder
  // ---------------------------------------------------------------------------

  /** `key.trim().split('.')` */
  function Path(key: string): (parts: seq<string>)
    ensures |parts| >= 1
  {
    Split(Trim(key), '.')
  }

  /** How the `for (const part of parts)` loop ends: at `return match`, or after the last part. */
  datatype Walked = Missed | Reached(value: Option<Value>)

  /**
   * The loop over the path: while the current value is an object it is
   * replaced by its property `part`; otherwise the walk returns the match.
   */
  function Walk(value: Option<Value>, parts: seq<string>): Walked
    decreases |parts|
  {
    if parts == [] then Reached(value)
    else if value.Some? && IsObject(value.value) then Walk(Lookup(value.value, parts[0]), parts[1..])
    else Missed
  }

  /** What the replace callback returns for a match whose key splits into `parts`. */
  function Replacement(root: Value, raw: string, parts: seq<string>): string {
    match Walk(Some(root), parts)
    case Missed => raw
    case Reached(None) => raw
    case Reached(Some(v)) => if v.Null? then raw else ToText(v)
  }

  /** What the replace callback returns for a match with capture group `key`. */
  function Substitution(root: Value, raw: string, key: string): string {
    Replacement(root, raw, Path(key))
  }

  /** The value at the end of a dotted path, if every step reaches an object that has that property. */
  function PathValue(v: Value, parts: seq<string>): Option<Value>
    decreases |parts|
  {
    if parts == [] then Some(v)
    else if !IsObject(v) then None
    else
      match Lookup(v, parts[0])
      case None => None
      case Some(w) => PathValue(w, parts[1..])
  }

  /** A value other than null, if there is one. */
  function Present(o: Option<Value>): Option<Value> {
    if o.Some? && !o.value.Null? then o else None
  }

  /** The value the walk ends on, when the callback would print it. */
  function Printed(w: Walked): Option<Value> {
    if w.Reached? then Present(w.value) else None
  }

  /** The source's loop reaches a present value exactly when the path leads to it. */
  lemma {:induction false} WalkFindsPathValue(v: Value, parts: seq<string>)
    ensures Printed(Walk(Some(v), parts)) == Present(PathValue(v, parts))
    decreases |parts|
  {
    if parts != [] && IsObject(v) {
      match Lookup(v, parts[0])
      case None =>
        assert parts[1..] == [] || Walk(None, parts[1..]) == Missed;
      case Some(w) =>
        WalkFindsPathValue(w, parts[1..]);
    }
  }

  /** The callback prints the value the path leads to, when it is present and not null, and keeps the match otherwise. */
  lemma ReplacementMeaning(root: Value, raw: string, parts: seq<string>)
    ensures Present(PathValue(root, parts)).Some? ==>
      Replacement(root, raw, parts) == ToText(PathValue(root, parts).value)
    ensures Present(PathValue(root, parts)).None? ==> Replacement(root, raw, parts) == raw
  {
    WalkFindsPathValue(root, parts);
  }

  /**
   * A match becomes `String(v)` when its trimmed, dot-split key leads through
   * objects to a present non-null value `v`; otherwise it is kept verbatim.
   */
  lemma SubstitutionMeaning(root: Value, raw: string, key: string)
    ensures Present(PathValue(root, Path(key))).Some? ==>
      Substitution(root, raw, key) == ToText(PathValue(root, Path(key)).value)
    ensures Present(PathValue(root, Path(key))).None? ==> Substitution(root, raw, key) == raw
  {
    ReplacementMeaning(root, raw, Path(key));
  }

  /** A path that meets a string, number, boolean or null before its last part leads nowhere. */
  lemma {:induction false} PathThroughNonObject(v: Value, parts: seq<string>, i: nat)
    requires i < |parts|
    requires PathValue(v, parts[..i]).Some? && !IsObject(PathValue(v, parts[..i]).value)
    ensures PathValue(v, parts) == None
    decreases i
  {
    if i > 0 {
      assert parts[..i][0] == parts[0];
      assert parts[..i][1..] == parts[1..][..i - 1];
      var w := Lookup(v, parts[0]).value;
      PathThroughNonObject(w, parts[1..], i - 1);
    }
  }

  // ---------------------------------------------------------------------------
  // Rendering
  // ---------------------------------------------------------------------------

  /** What one segment contributes to the output. */
  function SegmentValue(root: Value, seg: Segment): string {
    match seg
    case Lit(text) => text
    case Hole(raw, key) => Substitution(root, raw, key)
  }

  /** The output of `replace`: each segment's contribution, in order; replacements are not re-scanned. */
  function Evaluate(root: Value, segs: seq<Segment>): string {
    if segs == [] then "" else SegmentValue(root, segs[0]) + Evaluate(root, segs[1..])
  }

  /** `render(template)` under the given bindings. */
  function RenderText(bindings: map<string, Value>, template: string): string {
    Evaluate(Obj(bindings), Scan(template))
  }

  lemma {:induction false} EvaluateAppend(root: Value, segs: seq<Segment>, seg: Segment)
    ensures Evaluate(root, segs + [seg]) == Evaluate(root, segs) + SegmentValue(root, seg)
    decreases |segs|
  {
    if segs != [] {
      assert (segs + [seg])[1..] == segs[1..] + [seg];
      EvaluateAppend(root, segs[1..], seg);
    } else {
      assert [] + [seg] == [seg];
    }
  }

  lemma EvaluatePrependChar(root: Value, c: char, segs: seq<Segment>)
    ensures Evaluate(root, PrependChar(c, segs)) == [c] + Evaluate(root, segs)
  {
    var r := PrependChar(c, segs);
    if segs != [] && segs[0].Lit? {
      var text := segs[0].text;
      var tail := Evaluate(root, segs[1..]);
      assert r[0] == Lit([c] + text) && r[1..] == segs[1..];
      assert Evaluate(root, r) == ([c] + text) + tail;
      assert Evaluate(root, segs) == text + tail;
      AppendAssoc([c], text, tail);
    } else {
      assert r[0] == Lit([c]) && r[1..] == segs;
    }
  }

  lemma AppendAssoc(a: string, b: string, c: string)
    ensures (a + b) + c == a + (b + c)
  {
  }

  /** When every placeholder is left verbatim, the output is the segments' source text. */
  lemma {:induction false} EvaluateUnresolved(root: Value, segs: seq<Segment>)
    requires forall i :: 0 <= i < |segs| ==> SegmentValue(root, segs[i]) == SourceText(segs[i])
    ensures Evaluate(root, segs) == Flatten(segs)
    decreases |segs|
  {
    if segs != [] {
      assert SegmentValue(root, segs[0]) == SourceText(segs[0]);
      forall i | 0 <= i < |segs[1..]|
        ensures SegmentValue(root, segs[1..][i]) == SourceText(segs[1..][i])
      {
        assert segs[1..][i] == segs[i + 1];
      }
      EvaluateUnresolved(root, segs[1..]);
    }
  }

  /** When no placeholder of the template resolves, rendering returns the template unchanged. */
  lemma RenderUnresolvedIsIdentity(bindings: map<string, Value>, template: string)
    requires forall i :: 0 <= i < |Scan(template)| ==>
      SegmentValue(Obj(bindings), Scan(template)[i]) == SourceText(Scan(template)[i])
    ensures RenderText(bindings, template) == template
  {
    EvaluateUnresolved(Obj(bindings), Scan(template));
    ScanCoversTemplate(template);
  }

  /** A template in which no position starts a match renders unchanged. */
  lemma RenderWithoutMatchIsIdentity(bindings: map<string, Value>, template: string)
    requires !HasMatch(template)
    ensures RenderText(bindings, template) == template
  {
    ScanFindsHoleIffMatch(template);
    RenderUnresolvedIsIdentity(bindings, template);
  }

  /** The document paths 'cells.txt' and 'quiz.txt' come back as they are. */
  lemma DocumentPathsRenderUnchanged(bindings: map<string, Value>)
    ensures RenderText(bindings, "cells.txt") == "cells.txt"
    ensures RenderText(bindings, "quiz.txt") == "quiz.txt"
  {
    NoBraceNoMatch("cells.txt");
    RenderWithoutMatchIsIdentity(bindings, "cells.txt");
    NoBraceNoMatch("quiz.txt");
    RenderWithoutMatchIsIdentity(bindings, "quiz.txt");
  }

  /** The text of a placeholder with capture group `key`. */
  function Placeholder(key: string): string {
    "{{" + key + "}}"
  }

  /** A template that starts with a whole match scans into that hole and then the scan of the rest. */
  lemma ScanOfMatch(key: string, post: string)
    requires |key| >= 1 && '}' !in key
    ensures Scan(Placeholder(key) + post) == [Hole(Placeholder(key), key)] + Scan(post)
  {
    var t := Placeholder(key) + post;
    assert t == "{{" + key + "}}" + post;
    MatchLenOf(key, post);
    var n := |key| + 4;
    assert t[..n] == Placeholder(key);
    assert t[2..n - 2] == key;
    assert t[n..] == post;
  }

  /** A template that does not start with a match scans into its first character and the scan of the rest. */
  lemma ScanOfUnmatched(c: char, rest: string)
    requires MatchLen([c] + rest).None?
    ensures Scan([c] + rest) == PrependChar(c, Scan(rest))
  {
    var t := [c] + rest;
    assert t[0] == c;
    assert t[1..] == rest;
  }

  lemma EvaluateHoleFirst(root: Value, raw: string, key: string, segs: seq<Segment>)
    ensures Evaluate(root, [Hole(raw, key)] + segs) == Substitution(root, raw, key) + Evaluate(root, segs)
  {
    assert ([Hole(raw, key)] + segs)[1..] == segs;
  }

  /** A template that starts with a whole match renders as its substitution followed by the rendering of the rest. */
  lemma RenderFromHole(bindings: map<string, Value>, key: string, post: string)
    requires |key| >= 1 && '}' !in key
    ensures RenderText(bindings, Placeholder(key) + post)
         == Substitution(Obj(bindings), Placeholder(key), key) + RenderText(bindings, post)
  {
    ScanOfMatch(key, post);
    EvaluateHoleFirst(Obj(bindings), Placeholder(key), key, Scan(post));
  }

  /** A leading character that does not start a match is copied to the output. */
  lemma RenderFromUnmatched(bindings: map<string, Value>, c: char, rest: string)
    requires MatchLen([c] + rest).None?
    ensures RenderText(bindings, [c] + rest) == [c] + RenderText(bindings, rest)
  {
    ScanOfUnmatched(c, rest);
    EvaluatePrependChar(Obj(bindings), c, Scan(rest));
  }

  /** Splitting off the first character of a non-empty string in front of a concatenation. */
  lemma ConsConcat(s: string, r: string)
    requires s != []
    ensures [s[0]] + (s[1..] + r) == s + r
  {
    assert s == [s[0]] + s[1..];
  }

  /**
   * Text before a placeholder is copied, the placeholder is replaced by its
   * substitution, and scanning resumes after it, never inside the inserted
   * text. The text before it may hold braces, as long as no position in it
   * starts a match: the placeholder is then the leftmost match.
   */
  lemma {:induction false} RenderAround(bindings: map<string, Value>, pre: string, key: string, post: string)
    requires forall p :: 0 <= p < |pre| ==> MatchLen((pre + (Placeholder(key) + post))[p..]).None?
    requires |key| >= 1 && '}' !in key
    ensures RenderText(bindings, pre + (Placeholder(key) + post))
         == pre + (Substitution(Obj(bindings), Placeholder(key), key) + RenderText(bindings, post))
    decreases |pre|
  {
    var tail := Placeholder(key) + post;
    var r := Substitution(Obj(bindings), Placeholder(key), key) + RenderText(bindings, post);
    if pre == [] {
      assert pre + tail == tail;
      assert pre + r == r;
      RenderFromHole(bindings, key, post);
    } else {
      var t := pre + tail;
      var rest := pre[1..] + tail;
      ConsConcat(pre, tail);
      ConsConcat(pre, r);
      assert MatchLen([pre[0]] + rest).None? by {
        assert t[0..] == t;
      }
      forall p | 0 <= p < |pre[1..]|
        ensures MatchLen((pre[1..] + tail)[p..]).None?
      {
        assert (pre[1..] + tail)[p..] == t[p + 1..];
      }
      RenderFromUnmatched(bindings, pre[0], rest);
      RenderAround(bindings, pre[1..], key, post);
    }
  }

  /** `{x{{a}}`: the lone '{' before the match is copied and `{{a}}` is still replaced. */
  lemma StrayBraceBeforeMatch(bindings: map<string, Value>)
    ensures RenderText(bindings, "{x" + (Placeholder("a") + ""))
         == "{x" + (Substitution(Obj(bindings), Placeholder("a"), "a") + "")
  {
    var pre := "{x";
    var t := pre + (Placeholder("a") + "");
    forall p | 0 <= p < |pre|
      ensures MatchLen(t[p..]).None?
    {
      assert t[p..][1] == (if p == 0 then 'x' else '{');
      if p == 1 { assert t[p..][0] == 'x'; }
    }
    RenderAround(bindings, pre, "a", "");
    assert RenderText(bindings, "") == "" by { assert Scan("") == []; }
  }

  /** A template that is one placeholder renders as that placeholder's substitution and nothing else. */
  lemma RenderSinglePlaceholder(bindings: map<string, Value>, key: string)
    requires |key| >= 1 && '}' !in key
    ensures RenderText(bindings, Placeholder(key)) == Substitution(Obj(bindings), Placeholder(key), key)
  {
    RenderFromHole(bindings, key, "");
    assert Placeholder(key) + "" == Placeholder(key);
  }

  /** `{{{a}}` is a single match whose key is `{a`: the key may contain '{'. */
  lemma TripleBraceIsOneMatch()
    ensures Scan("{{{a}}") == [Hole("{{{a}}", "{a")]
  {
    var key := "{a";
    ScanOfMatch(key, "");
    assert Placeholder(key) + "" == "{{{a}}";
    assert Placeholder(key) == "{{{a}}";
    assert Scan("") == [];
  }

  /** `{{}}` is not a match: at least one character must stand between the braces. */
  lemma EmptyBracesAreLiteral(bindings: map<string, Value>)
    ensures !HasMatch("{{}}")
    ensures RenderText(bindings, "{{}}") == "{{}}"
  {
    var t := "{{}}";
    forall p | 0 <= p < |t|
      ensures MatchLen(t[p..]).None?
    {
      if p == 0 {
        assert BraceFreeRun(t, 2) == 2;
      } else {
        assert t[p..][0] == '}' || t[p..][1] == '}';
      }
    }
    RenderWithoutMatchIsIdentity(bindings, t);
  }

  /** A name that can stand on either side of the dot of a two-part key. */
  predicate PlainName(s: string) {
    && |s| >= 1
    && '.' !in s && '}' !in s
    && !IsWhitespace(s[0]) && !IsWhitespace(s[|s| - 1])
  }

  /** The key `ns.field`, as in `secrets.USER_NAME` or `metadata.x`. */
  function DottedKey(ns: string, field: string): string {
    ns + "." + field
  }

  /** A two-part key walks the namespace and then its field. */
  lemma PathOfDottedKey(ns: string, field: string)
    requires PlainName(ns) && PlainName(field)
    ensures Path(DottedKey(ns, field)) == [ns, field]
  {
    var key := DottedKey(ns, field);
    assert key == ns + ['.'] + field;
    assert key[0] == ns[0] && key[|key| - 1] == field[|field| - 1];
    TrimUnpadded(key);
    SplitFirst(ns, '.', field);
    SplitNoSeparator(field, '.');
  }

  /** `{{ns.field}}` renders as `String(v)` when namespace `ns` has a present, non-null property `field` holding `v`. */
  lemma DottedKeyRenders(bindings: map<string, Value>, ns: string, field: string, x: Value)
    requires PlainName(ns) && PlainName(field)
    requires ns in bindings && bindings[ns].Obj?
    requires field in bindings[ns].fields && bindings[ns].fields[field] == x
    requires !x.Null?
    ensures RenderText(bindings, Placeholder(DottedKey(ns, field))) == ToText(x)
  {
    var key := DottedKey(ns, field);
    var root := Obj(bindings);
    PathOfDottedKey(ns, field);
    RenderSinglePlaceholder(bindings, key);
    SubstitutionMeaning(root, Placeholder(key), key);
    assert PathValue(root, [ns, field]) == Some(x) by {
      assert [ns, field][1..] == [field];
      assert PathValue(bindings[ns], [field]) == Some(x) by {
        assert [field][1..] == [];
      }
    }
  }

  /** `{{ns.field}}` stays verbatim when namespace `ns` has no property `field`. */
  lemma DottedKeyMissing(bindings: map<string, Value>, ns: string, field: string)
    requires PlainName(ns) && PlainName(field)
    requires ns in bindings && bindings[ns].Obj?
    requires field !in bindings[ns].fields
    ensures RenderText(bindings, Placeholder(DottedKey(ns, field))) == Placeholder(DottedKey(ns, field))
  {
    var key := DottedKey(ns, field);
    var root := Obj(bindings);
    PathOfDottedKey(ns, field);
    RenderSinglePlaceholder(bindings, key);
    SubstitutionMeaning(root, Placeholder(key), key);
    assert PathValue(root, [ns, field]) == None by {
      assert [ns, field][1..] == [field];
    }
  }

  /** `{{ns.field}}` stays verbatim when namespace `ns` holds a null field. */
  lemma DottedKeyNull(bindings: map<string, Value>, ns: string, field: string)
    requires PlainName(ns) && PlainName(field)
    requires ns in bindings && bindings[ns].Obj?
    requires field in bindings[ns].fields && bindings[ns].fields[field] == Null
    ensures RenderText(bindings, Placeholder(DottedKey(ns, field))) == Placeholder(DottedKey(ns, field))
  {
    var key := DottedKey(ns, field);
    var root := Obj(bindings);
    PathOfDottedKey(ns, field);
    RenderSinglePlaceholder(bindings, key);
    SubstitutionMeaning(root, Placeholder(key), key);
    assert PathValue(root, [ns, field]) == Some(Null) by {
      assert [ns, field][1..] == [field];
      assert PathValue(bindings[ns], [field]) == Some(Null) by {
        assert [field][1..] == [];
      }
    }
  }
}
