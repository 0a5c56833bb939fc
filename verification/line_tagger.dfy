/** The source-line tagger: markdown-it renderer rules are wrapped so that,
    before a block token is rendered, its `data-source-line` attribute is set
    to the 1-based number of the first source line it came from.

    Tokens keep only what the tagger touches: the token type, the line range
    `map` (0-based `[begin, end)`, null for synthetic tokens) and the
    attribute list. A rule is data: a renderer rule that existed before the
    wrapping, the renderer's generic `renderToken`, or a wrapper around
    another rule; `Invoke` gives rules their meaning, with the pre-existing
    renderers as parameters. */
module LineTagger {
  import opened Optional
  import opened JsString

  /** An attribute as markdown-it stores it, a `[name, value]` pair. */
  datatype Attr = Attr(name: string, value: string)

  /** A token; `lineMap` is markdown-it's `token.map`, and an absent
      attribute list (`attrs === null`) is the empty list. */
  datatype Token = Token(kind: string, lineMap: Option<seq<int>>, attrs: seq<Attr>)

  const SourceLineAttr: string := "data-source-line"

  // ---------------------------------------------------------------------
  // Attributes (markdown-it's Token.attrIndex / attrGet / attrSet)

  /** Position of the first attribute called `name`, or -1. */
  function AttrIndex(attrs: seq<Attr>, name: string): (i: int)
    ensures -1 <= i < |attrs|
    ensures 0 <= i ==> attrs[i].name == name && forall j :: 0 <= j < i ==> attrs[j].name != name
    ensures i == -1 ==> forall j :: 0 <= j < |attrs| ==> attrs[j].name != name
    decreases |attrs|
  {
    if |attrs| == 0 then -1
    else if attrs[0].name == name then 0
    else
      var i := AttrIndex(attrs[1..], name);
      if i < 0 then -1 else i + 1
  }

  /** The value of the first attribute called `name`. */
  function AttrGet(attrs: seq<Attr>, name: string): Option<string> {
    var i := AttrIndex(attrs, name);
    if i < 0 then None else Some(attrs[i].value)
  }

  /** Overwrites the first attribute called `name`, or appends one. */
  function AttrSet(attrs: seq<Attr>, name: string, value: string): (r: seq<Attr>)
    ensures AttrGet(r, name) == Some(value)
    ensures forall n :: n != name ==> AttrGet(r, n) == AttrGet(attrs, n)
    ensures |attrs| <= |r| <= |attrs| + 1
    ensures |r| == |attrs| <==> AttrIndex(attrs, name) >= 0
    ensures AttrIndex(attrs, name) >= 0 ==> r[AttrIndex(attrs, name)] == Attr(name, value)
    ensures AttrIndex(attrs, name) < 0 ==> r[|attrs|] == Attr(name, value)
    ensures forall j :: 0 <= j < |attrs| && j != AttrIndex(attrs, name) ==> r[j] == attrs[j]
  {
    var i := AttrIndex(attrs, name);
    if i < 0 then
      var r := attrs + [Attr(name, value)];
      assert AttrIndex(r, name) == |attrs| by {
        assert r[|attrs|].name == name;
        assert forall j :: 0 <= j < |attrs| ==> r[j] == attrs[j];
      }
      assert forall n :: n != name ==> AttrIndex(r, n) == AttrIndex(attrs, n) by {
        forall n | n != name ensures AttrIndex(r, n) == AttrIndex(attrs, n) {
          IndexOfPrefix(attrs, Attr(name, value), n);
        }
      }
      r
    else
      var r := attrs[i := Attr(name, value)];
      assert AttrIndex(r, name) == i by {
        assert r[i].name == name;
        assert forall j :: 0 <= j < i ==> r[j] == attrs[j];
      }
      assert forall n :: n != name ==> AttrIndex(r, n) == AttrIndex(attrs, n) by {
        forall n | n != name ensures AttrIndex(r, n) == AttrIndex(attrs, n) {
          IndexAfterReplace(attrs, i, Attr(name, value), n);
        }
      }
      r
  }

  lemma IndexOfPrefix(attrs: seq<Attr>, a: Attr, n: string)
    requires a.name != n
    ensures AttrIndex(attrs + [a], n) == AttrIndex(attrs, n)
  {
    var i := AttrIndex(attrs + [a], n);
    var k := AttrIndex(attrs, n);
    if k >= 0 {
      assert (attrs + [a])[k] == attrs[k];
    }
    if i >= 0 && i < |attrs| {
      assert (attrs + [a])[i] == attrs[i];
    }
  }

  lemma IndexAfterReplace(attrs: seq<Attr>, i: nat, a: Attr, n: string)
    requires i < |attrs| && attrs[i].name == a.name && a.name != n
    ensures AttrIndex(attrs[i := a], n) == AttrIndex(attrs, n)
  {
    var r := attrs[i := a];
    assert forall j :: 0 <= j < |attrs| ==> r[j].name == attrs[j].name;
    var p := AttrIndex(r, n);
    var q := AttrIndex(attrs, n);
    if p >= 0 { assert attrs[p].name == n; }
    if q >= 0 { assert r[q].name == n; }
  }

  /** Setting the same attribute to the same value twice is setting it once. */
  lemma AttrSetIdempotent(attrs: seq<Attr>, name: string, value: string)
    ensures AttrSet(AttrSet(attrs, name, value), name, value) == AttrSet(attrs, name, value)
  {
    var once := AttrSet(attrs, name, value);
    var i := AttrIndex(once, name);
    assert once[i] == Attr(name, value);
    assert once[i := Attr(name, value)] == once;
  }

  // ---------------------------------------------------------------------
  // injectLineNumber

  /** `token.map && token.map.length`: a non-null, non-empty line range. */
  predicate HasLineMap(t: Token) {
    t.lineMap.Some? && |t.lineMap.value| > 0
  }

  /** `injectLineNumber(tokens, idx)`: when token `idx` has a line range, set
      its `data-source-line` to `String(map[0] + 1)`. */
  function InjectLineNumber(tokens: seq<Token>, idx: nat): (r: seq<Token>)
    requires idx < |tokens|
    ensures |r| == |tokens|
    ensures forall j :: 0 <= j < |tokens| && j != idx ==> r[j] == tokens[j]
    ensures r[idx].kind == tokens[idx].kind && r[idx].lineMap == tokens[idx].lineMap
    ensures HasLineMap(tokens[idx]) ==>
      AttrGet(r[idx].attrs, SourceLineAttr) == Some(IntToString(tokens[idx].lineMap.value[0] + 1))
    ensures forall n :: n != SourceLineAttr ==> AttrGet(r[idx].attrs, n) == AttrGet(tokens[idx].attrs, n)
    ensures HasLineMap(tokens[idx]) ==>
      r[idx].attrs == AttrSet(tokens[idx].attrs, SourceLineAttr, IntToString(tokens[idx].lineMap.value[0] + 1))
    ensures !HasLineMap(tokens[idx]) ==> r == tokens
  {
    var t := tokens[idx];
    if HasLineMap(t) then
      tokens[idx := t.(attrs := AttrSet(t.attrs, SourceLineAttr, IntToString(t.lineMap.value[0] + 1)))]
    else tokens
  }

  /** Tagging twice gives the same tokens as tagging once. */
  lemma InjectIdempotent(tokens: seq<Token>, idx: nat)
    requires idx < |tokens|
    ensures InjectLineNumber(InjectLineNumber(tokens, idx), idx) == InjectLineNumber(tokens, idx)
  {
    var t := tokens[idx];
    if HasLineMap(t) {
      AttrSetIdempotent(t.attrs, SourceLineAttr, IntToString(t.lineMap.value[0] + 1));
    }
  }

  /** The line number a consumer reads back from a tagged token; a missing or
      malformed attribute reads as untagged. */
  function TaggedLine(t: Token): Option<int> {
    match AttrGet(t.attrs, SourceLineAttr)
    case None => None
    case Some(s) => ParseInt(s)
  }

  /** The tag is the 0-based start line plus one, and a valid (non-negative)
      start line gives a 1-based line number of at least 1. */
  lemma TaggedLineIsOneBased(tokens: seq<Token>, idx: nat)
    requires idx < |tokens| && HasLineMap(tokens[idx])
    ensures var begin := tokens[idx].lineMap.value[0];
      && TaggedLine(InjectLineNumber(tokens, idx)[idx]) == Some(begin + 1)
      && (begin >= 0 ==> TaggedLine(InjectLineNumber(tokens, idx)[idx]).value >= 1)
  {
    IntToStringRoundTrip(tokens[idx].lineMap.value[0] + 1);
  }

  // ---------------------------------------------------------------------
  // Rules

  datatype Rule =
    | Builtin(id: string)      // a rule the renderer had before the wrapping
    | RenderToken              // `(t, i, o, _e, s) => s.renderToken(t, i, o)`
    | LineTagged(inner: Rule)  // the wrapper: injectLineNumber, then `inner`

  /** `md.renderer.rules`: token type to rule; a missing key is `undefined`. */
  type Registry = map<string, Rule>

  const OpenerKinds: seq<string> := [
    "paragraph_open", "heading_open", "blockquote_open", "list_item_open",
    "bullet_list_open", "ordered_list_open", "table_open", "tr_open"]

  const ComplexKinds: seq<string> := ["fence", "code_block", "image"]

  /** The rule a wrapper delegates to in the end. */
  function Innermost(rule: Rule): (r: Rule)
    ensures !r.LineTagged?
  {
    if rule.LineTagged? then Innermost(rule.inner) else rule
  }

  /** What a non-wrapper rule returns, given the renderers the wrapping
      cannot see: the pre-existing rules and `renderToken`. */
  function Base(rule: Rule, tokens: seq<Token>, idx: nat,
                builtin: (string, seq<Token>, nat) -> string,
                renderToken: (seq<Token>, nat) -> string): string
    requires !rule.LineTagged?
  {
    if rule.Builtin? then builtin(rule.id, tokens, idx) else renderToken(tokens, idx)
  }

  /** Calling a rule on token `idx`: the rendered text and the token stream
      as the call leaves it (a wrapper tags the token in place). However
      deeply wrappers nest, the token is tagged as if once and the innermost
      rule renders the tagged stream. */
  function Invoke(rule: Rule, tokens: seq<Token>, idx: nat,
                  builtin: (string, seq<Token>, nat) -> string,
                  renderToken: (seq<Token>, nat) -> string): (out: (string, seq<Token>))
    requires idx < |tokens|
    ensures out.1 == if rule.LineTagged? then InjectLineNumber(tokens, idx) else tokens
    ensures out.0 == Base(Innermost(rule), out.1, idx, builtin, renderToken)
    decreases rule
  {
    match rule
    case LineTagged(inner) =>
      var tagged := InjectLineNumber(tokens, idx);
      InjectIdempotent(tokens, idx);
      Invoke(inner, tagged, idx, builtin, renderToken)
    case _ => (Base(rule, tokens, idx, builtin, renderToken), tokens)
  }

  /** `md.renderer.rules[rule] || fallback` for an opener kind. */
  function OriginalOrFallback(rules: Registry, kind: string): Rule {
    if kind in rules then rules[kind] else RenderToken
  }

  /** The first loop: every opener kind is wrapped around its original rule,
      or around `renderToken` when it had none; nothing else changes. */
  method WrapOpeners(rules: Registry) returns (r: Registry)
    ensures forall k :: k in OpenerKinds ==> k in r && r[k] == LineTagged(OriginalOrFallback(rules, k))
    ensures forall k :: k !in OpenerKinds ==> (k in r <==> k in rules) && (k in rules ==> r[k] == rules[k])
  {
    r := rules;
    for i := 0 to |OpenerKinds|
      invariant forall j :: 0 <= j < i ==>
        OpenerKinds[j] in r && r[OpenerKinds[j]] == LineTagged(OriginalOrFallback(rules, OpenerKinds[j]))
      invariant forall k :: k !in OpenerKinds[..i] ==> (k in r <==> k in rules) && (k in rules ==> r[k] == rules[k])
    {
      var kind := OpenerKinds[i];
      var original := if kind in r then r[kind] else RenderToken;
      r := r[kind := LineTagged(original)];
    }
    assert OpenerKinds[..|OpenerKinds|] == OpenerKinds;
  }

  /** The second loop: a complex kind is wrapped only when it has a rule;
      nothing else changes. */
  method WrapComplex(rules: Registry) returns (r: Registry)
    ensures forall k :: k in ComplexKinds && k in rules ==> k in r && r[k] == LineTagged(rules[k])
    ensures forall k :: k in ComplexKinds && k !in rules ==> k !in r
    ensures forall k :: k !in ComplexKinds ==> (k in r <==> k in rules) && (k in rules ==> r[k] == rules[k])
  {
    r := rules;
    for i := 0 to |ComplexKinds|
      invariant forall j :: 0 <= j < i && ComplexKinds[j] in rules ==>
        ComplexKinds[j] in r && r[ComplexKinds[j]] == LineTagged(rules[ComplexKinds[j]])
      invariant forall j :: 0 <= j < i && ComplexKinds[j] !in rules ==> ComplexKinds[j] !in r
      invariant forall k :: k !in ComplexKinds[..i] ==> (k in r <==> k in rules) && (k in rules ==> r[k] == rules[k])
    {
      var kind := ComplexKinds[i];
      if kind in r {
        var original := r[kind];
        r := r[kind := LineTagged(original)];
      }
    }
    assert ComplexKinds[..|ComplexKinds|] == ComplexKinds;
  }

  /** Both loops in order. Exactly the opener kinds, and the complex kinds
      that had a rule, end up with a different rule; inline kinds and every
      other kind keep theirs. */
  method Setup(rules: Registry) returns (r: Registry)
    ensures forall k :: k in OpenerKinds ==> k in r && r[k] == LineTagged(OriginalOrFallback(rules, k))
    ensures forall k :: k in ComplexKinds && k in rules ==> k in r && r[k] == LineTagged(rules[k])
    ensures forall k :: k in ComplexKinds && k !in rules ==> k !in r
    ensures forall k :: k !in OpenerKinds && k !in ComplexKinds ==>
      (k in r <==> k in rules) && (k in rules ==> r[k] == rules[k])
    ensures forall k :: (k in r && (k !in rules || r[k] != rules[k]))
                        <==> (k in OpenerKinds || (k in ComplexKinds && k in rules))
  {
    assert forall k :: k in ComplexKinds ==> k !in OpenerKinds;
    var mid := WrapOpeners(rules);
    r := WrapComplex(mid);
    forall x: Rule ensures LineTagged(x) != x {
      assert x < LineTagged(x);
    }
  }
}
