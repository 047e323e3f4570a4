/**
 * The translation-key-string-literal rule (lib/rules/translation-key-string-literal.js):
 * a call `t(key)` whose first argument is not a string literal is reported, unless the
 * `allow-t-has-protected-conditionals` option is on and an enclosing conditional tests
 * `t.has(key2)` where `key2` has the same source text as `key` up to whitespace.
 */
module TranslationKeyStringLiteral {
  import opened Estree

  /** The only option the rule's schema admits. */
  const AllowOption: string := "allow-t-has-protected-conditionals"

  /** The one diagnostic the rule issues. */
  const NotALiteral: string := "Translation keys must be string literals"

  // ---------------------------------------------------------------------------
  // Whitespace normalisation: `text.replace(/\s+/g, " ").trim()`
  // ---------------------------------------------------------------------------

  /** The characters of the ECMAScript `\s` class, which are also exactly the characters
      `String.prototype.trim` removes: white space and line terminators. */
  predicate IsWhitespace(c: char) {
    || c == '\t' || c == '\n' || c == '\U{B}' || c == '\U{C}' || c == '\r' || c == ' '
    || c == '\U{A0}' || c == '\U{1680}' || ('\U{2000}' <= c <= '\U{200A}')
    || c == '\U{2028}' || c == '\U{2029}' || c == '\U{202F}' || c == '\U{205F}'
    || c == '\U{3000}' || c == '\U{FEFF}'
  }

  /** The non-whitespace characters of `s`, in order. */
  function Content(s: string): string {
    if s == [] then []
    else (if IsWhitespace(s[0]) then [] else [s[0]]) + Content(s[1..])
  }

  /** `s` without its leading whitespace. */
  function SkipSpace(s: string): (r: string)
    ensures |r| <= |s|
  {
    if s != [] && IsWhitespace(s[0]) then SkipSpace(s[1..]) else s
  }

  /** What `SkipSpace` drops is a whitespace prefix, and what it keeps starts with a
      non-whitespace character. */
  lemma {:induction false} SkipSpaceShape(s: string)
    ensures var r := SkipSpace(s);
            && r == s[|s| - |r|..]
            && (r == [] || !IsWhitespace(r[0]))
            && forall i :: 0 <= i < |s| - |r| ==> IsWhitespace(s[i])
  {
    if s != [] && IsWhitespace(s[0]) {
      SkipSpaceShape(s[1..]);
    }
  }

  /** `s` without its trailing whitespace. */
  function TrimEnd(s: string): (r: string)
    ensures |r| <= |s|
  {
    if s != [] && IsWhitespace(s[|s| - 1]) then TrimEnd(s[..|s| - 1]) else s
  }

  /** What `TrimEnd` drops is a whitespace suffix, and what it keeps ends with a
      non-whitespace character. */
  lemma {:induction false} TrimEndShape(s: string)
    ensures var r := TrimEnd(s);
            && r == s[..|r|]
            && (r == [] || !IsWhitespace(r[|r| - 1]))
            && forall i :: |r| <= i < |s| ==> IsWhitespace(s[i])
  {
    if s != [] && IsWhitespace(s[|s| - 1]) {
      TrimEndShape(s[..|s| - 1]);
    }
  }

  /** `s.trim()` */
  function Trim(s: string): string {
    TrimEnd(SkipSpace(s))
  }

  /** Whitespace occurs only as single spaces. */
  predicate Collapsed(s: string) {
    && (forall i :: 0 <= i < |s| && IsWhitespace(s[i]) ==> s[i] == ' ')
    && (forall i :: 0 <= i < |s| - 1 && IsWhitespace(s[i]) ==> !IsWhitespace(s[i + 1]))
  }

  /** `s.replace(/\s+/g, " ")`: every maximal run of whitespace becomes one space. */
  function Collapse(s: string): string
    decreases |s|
  {
    if s == [] then []
    else if IsWhitespace(s[0]) then " " + Collapse(SkipSpace(s[1..]))
    else [s[0]] + Collapse(s[1..])
  }

  /** Collapsing leaves whitespace only as single spaces, and keeps the string empty or
      not and its first character whitespace or not. */
  lemma {:induction false} CollapseShape(s: string)
    ensures Collapsed(Collapse(s))
    ensures Collapse(s) == [] <==> s == []
    ensures s != [] ==> (IsWhitespace(Collapse(s)[0]) <==> IsWhitespace(s[0]))
    decreases |s|
  {
    if s != [] {
      var t := if IsWhitespace(s[0]) then SkipSpace(s[1..]) else s[1..];
      SkipSpaceShape(s[1..]);
      CollapseShape(t);
      var r := Collapse(s);
      assert r[1..] == Collapse(t);
      assert IsWhitespace(s[0]) ==> t == [] || !IsWhitespace(Collapse(t)[0]);
      forall i | 0 <= i < |r| - 1 && IsWhitespace(r[i])
        ensures !IsWhitespace(r[i + 1])
      {
        if i > 0 {
          assert r[i] == Collapse(t)[i - 1] && r[i + 1] == Collapse(t)[i];
        }
      }
    }
  }

  /** `getNormalizedSource`: the text with whitespace runs collapsed and trimmed. It
      neither starts nor ends with whitespace; `NormalizedShape` adds that whitespace
      survives only as single spaces. */
  function NormalizedSource(text: string): (r: string)
    ensures r == [] || (!IsWhitespace(r[0]) && !IsWhitespace(r[|r| - 1]))
  {
    TrimIsSlice(Collapse(text));
    Trim(Collapse(text))
  }

  /** Trimming keeps a contiguous slice that starts and ends with non-whitespace. */
  lemma TrimIsSlice(c: string)
    ensures var a := |c| - |SkipSpace(c)|;
            var r := Trim(c);
            && a + |r| <= |c| && r == c[a..a + |r|]
            && (r == [] || (!IsWhitespace(r[0]) && !IsWhitespace(r[|r| - 1])))
  {
    SkipSpaceShape(c);
    var u := SkipSpace(c);
    var a := |c| - |u|;
    var r := TrimEnd(u);
    TrimEndShape(u);
    assert u == c[a..];
    assert r == u[..|r|];
    if r != [] {
      assert r[0] == u[0];
    }
  }

  /** The normalised source has no leading or trailing whitespace, and its only
      whitespace is single spaces between non-whitespace characters. */
  lemma NormalizedShape(text: string)
    ensures Collapsed(NormalizedSource(text))
    ensures var r := NormalizedSource(text);
            r == [] || (!IsWhitespace(r[0]) && !IsWhitespace(r[|r| - 1]))
  {
    var c := Collapse(text);
    CollapseShape(text);
    TrimIsSlice(c);
    var a := |c| - |SkipSpace(c)|;
    CollapsedSlice(c, a, a + |Trim(c)|);
  }

  /** Any slice of a collapsed string is collapsed. */
  lemma CollapsedSlice(s: string, a: nat, b: nat)
    requires Collapsed(s) && a <= b <= |s|
    ensures Collapsed(s[a..b])
  {
    var t := s[a..b];
    forall i | 0 <= i < |t| - 1 && IsWhitespace(t[i])
      ensures !IsWhitespace(t[i + 1])
    {
      assert t[i] == s[a + i] && t[i + 1] == s[a + i + 1];
    }
  }

  lemma {:induction false} ContentAppend(a: string, b: string)
    ensures Content(a + b) == Content(a) + Content(b)
  {
    if a == [] {
      assert a + b == b;
    } else {
      var head := if IsWhitespace(a[0]) then [] else [a[0]];
      assert (a + b)[0] == a[0];
      assert (a + b)[1..] == a[1..] + b;
      ContentAppend(a[1..], b);
      calc {
        Content(a + b);
        head + Content(a[1..] + b);
        head + (Content(a[1..]) + Content(b));
        (head + Content(a[1..])) + Content(b);
      }
    }
  }

  /** A whitespace-only string has no content. */
  lemma {:induction false} ContentOfBlank(w: string)
    requires forall i :: 0 <= i < |w| ==> IsWhitespace(w[i])
    ensures Content(w) == []
  {
    if w != [] {
      ContentOfBlank(w[1..]);
    }
  }

  lemma SkipSpaceContent(s: string)
    ensures Content(SkipSpace(s)) == Content(s)
  {
    var r := SkipSpace(s);
    SkipSpaceShape(s);
    var w := s[..|s| - |r|];
    assert s == w + r;
    ContentAppend(w, r);
    ContentOfBlank(w);
  }

  lemma TrimEndContent(s: string)
    ensures Content(TrimEnd(s)) == Content(s)
  {
    var r := TrimEnd(s);
    TrimEndShape(s);
    var w := s[|r|..];
    assert s == r + w;
    ContentAppend(r, w);
    ContentOfBlank(w);
  }

  /** Collapsing keeps every non-whitespace character, in order. */
  lemma {:induction false} CollapseContent(s: string)
    ensures Content(Collapse(s)) == Content(s)
    decreases |s|
  {
    if s == [] {
    } else if IsWhitespace(s[0]) {
      var t := SkipSpace(s[1..]);
      CollapseContent(t);
      SkipSpaceContent(s[1..]);
      assert (" " + Collapse(t))[1..] == Collapse(t);
    } else {
      CollapseContent(s[1..]);
      assert ([s[0]] + Collapse(s[1..]))[1..] == Collapse(s[1..]);
    }
  }

  /** Normalisation changes whitespace only: the non-whitespace characters of the source
      text are kept, in order. */
  lemma NormalizedContent(text: string)
    ensures Content(NormalizedSource(text)) == Content(text)
  {
    var c := Collapse(text);
    CollapseContent(text);
    SkipSpaceContent(c);
    TrimEndContent(SkipSpace(c));
  }

  /** Two arguments with the same normalised source have the same non-whitespace text. */
  lemma SameNormalFormSameContent(x: string, y: string)
    requires NormalizedSource(x) == NormalizedSource(y)
    ensures Content(x) == Content(y)
  {
    NormalizedContent(x);
    NormalizedContent(y);
  }

  /** A collapsed string is left as it is by collapsing. */
  lemma {:induction false} CollapseFixesCollapsed(s: string)
    requires Collapsed(s)
    ensures Collapse(s) == s
    decreases |s|
  {
    if s != [] {
      CollapsedSlice(s, 1, |s|);
      CollapseFixesCollapsed(s[1..]);
      if IsWhitespace(s[0]) {
        assert s[1..] == [] || !IsWhitespace(s[1]);
        assert SkipSpace(s[1..]) == s[1..];
      }
      assert s == [s[0]] + s[1..];
    }
  }

  /** Normalising twice is normalising once. */
  lemma NormalizedIdempotent(text: string)
    ensures NormalizedSource(NormalizedSource(text)) == NormalizedSource(text)
  {
    var r := NormalizedSource(text);
    NormalizedShape(text);
    CollapseFixesCollapsed(r);
    assert SkipSpace(r) == r;
    assert TrimEnd(r) == r;
  }

  /** Leading whitespace is skipped through to the first non-whitespace character. */
  lemma {:induction false} SkipSpaceAppend(w: string, b: string)
    requires forall i :: 0 <= i < |w| ==> IsWhitespace(w[i])
    requires b == [] || !IsWhitespace(b[0])
    ensures SkipSpace(w + b) == b
  {
    if w != [] {
      assert (w + b)[1..] == w[1..] + b;
      SkipSpaceAppend(w[1..], b);
    } else {
      assert w + b == b;
    }
  }

  /** Collapsing distributes over a cut that follows a non-whitespace character. */
  lemma {:induction false} CollapseAppend(a: string, b: string)
    requires a == [] || !IsWhitespace(a[|a| - 1])
    ensures Collapse(a + b) == Collapse(a) + Collapse(b)
    decreases |a|
  {
    if a == [] {
      assert a + b == b;
    } else if IsWhitespace(a[0]) {
      var t := SkipSpace(a[1..]);
      SkipSpaceShape(a[1..]);
      var w := a[1..|a| - |t|];
      assert a[1..] == w + t;
      assert t != [] by {
        assert a[|a| - 1] == a[1..][|a| - 2];
      }
      SkipSpaceAppend(w, t + b);
      assert (a + b)[1..] == w + (t + b);
      assert t[|t| - 1] == a[|a| - 1];
      CollapseAppend(t, b);
    } else {
      assert (a + b)[1..] == a[1..] + b;
      if |a| > 1 {
        assert a[1..][|a| - 2] == a[|a| - 1];
      }
      CollapseAppend(a[1..], b);
    }
  }

  /** A whitespace run in front of a non-whitespace character collapses to one space. */
  lemma CollapseRun(w: string, b: string)
    requires w != [] && forall i :: 0 <= i < |w| ==> IsWhitespace(w[i])
    requires b == [] || !IsWhitespace(b[0])
    ensures Collapse(w + b) == " " + Collapse(b)
  {
    assert (w + b)[0] == w[0];
    assert (w + b)[1..] == w[1..] + b;
    SkipSpaceAppend(w[1..], b);
  }

  /** Any whitespace run between two tokens (spaces, tabs, line breaks) normalises as a
      single space would: `t.has(\n  a.b\n)`-style layout does not matter. */
  lemma WhitespaceRunsAreEquivalent(a: string, w: string, b: string)
    requires a == [] || !IsWhitespace(a[|a| - 1])
    requires w != [] && forall i :: 0 <= i < |w| ==> IsWhitespace(w[i])
    requires b == [] || !IsWhitespace(b[0])
    ensures NormalizedSource(a + w + b) == NormalizedSource(a + " " + b)
  {
    assert a + w + b == a + (w + b);
    assert a + " " + b == a + (" " + b);
    CollapseAppend(a, w + b);
    CollapseAppend(a, " " + b);
    CollapseRun(w, b);
    CollapseRun(" ", b);
  }

  // ---------------------------------------------------------------------------
  // The `t.has(key) ? ... : ...` guard
  // ---------------------------------------------------------------------------

  /** `isTHasCall`: a call whose callee is the member expression `t.has`. Such a call
      never has a callee name, so it is never itself a call of `t`. */
  predicate IsTHasCall(node: Node): (b: bool)
    ensures b ==> node.CallExpression? && NameOf(node.callee) == None && CalleeName(Some(node)) == None
  {
    && node.CallExpression?
    && node.callee.MemberExpression?
    && NameOf(node.callee.obj) == Some("t")
    && NameOf(node.callee.property) == Some("has")
  }

  /** The ancestor is a conditional whose test is `t.has(k)`, and `k` and the first
      argument of the call have the same normalised source. Which branch holds the call
      is not examined. */
  predicate GuardsAt(ancestor: Node, call: Node) {
    && ancestor.ConditionalExpression?
    && IsTHasCall(ancestor.test)
    && ArgumentAt(Some(ancestor.test), 0).Some?
    && ArgumentAt(Some(call), 0).Some?
    && NormalizedSource(ArgumentAt(Some(ancestor.test), 0).value.text)
       == NormalizedSource(ArgumentAt(Some(call), 0).value.text)
  }

  /** `isGuardedByTHas`: the ancestors, innermost last, are searched from the innermost
      outwards for a guarding conditional. */
  method IsGuardedByTHas(call: Node, ancestors: seq<Node>) returns (guarded: bool)
    ensures guarded <==> exists i :: 0 <= i < |ancestors| && GuardsAt(ancestors[i], call)
    ensures guarded ==> exists i :: 0 <= i < |ancestors| && GuardsAt(ancestors[i], call)
                                  && forall j :: i < j < |ancestors| ==> !GuardsAt(ancestors[j], call)
  {
    var i := |ancestors|;
    while i > 0
      invariant 0 <= i <= |ancestors|
      invariant forall j :: i <= j < |ancestors| ==> !GuardsAt(ancestors[j], call)
    {
      i := i - 1;
      var ancestor := ancestors[i];
      if ancestor.ConditionalExpression? {
        if IsTHasCall(ancestor.test) {
          var tHasArg := ArgumentAt(Some(ancestor.test), 0);
          var tArg := ArgumentAt(Some(call), 0);
          if tHasArg.Some? && tArg.Some? {
            var tHasArgSource := NormalizedSource(tHasArg.value.text);
            var tArgSource := NormalizedSource(tArg.value.text);
            if tHasArgSource == tArgSource {
              return true;
            }
          }
        }
      }
    }
    return false;
  }

  // ---------------------------------------------------------------------------
  // The `CallExpression` visitor
  // ---------------------------------------------------------------------------

  /** `context.options[0] === "allow-t-has-protected-conditionals"` */
  predicate AllowsGuards(options: seq<string>) {
    |options| > 0 && options[0] == AllowOption
  }

  /** `node.arguments?.[0]?.type === "Literal"` */
  predicate HasLiteralKey(call: Node) {
    ArgumentAt(Some(call), 0).Some? && ArgumentAt(Some(call), 0).value.Literal?
  }

  /** The calls the rule flags: `t(...)` called on a bare identifier, with a first argument
      that is missing or not a literal, and, when guards are allowed, no guarding
      conditional among the ancestors. */
  predicate Flagged(options: seq<string>, call: Node, ancestors: seq<Node>)
    requires call.CallExpression?
  {
    && NameOf(call.callee) == Some("t")
    && !HasLiteralKey(call)
    && !(AllowsGuards(options) && exists i :: 0 <= i < |ancestors| && GuardsAt(ancestors[i], call))
  }

  /** The `CallExpression` visitor: the report is issued exactly for flagged calls. */
  method CheckCallExpression(options: seq<string>, call: Node, ancestors: seq<Node>)
    returns (report: Option<string>)
    requires call.CallExpression?
    ensures report.Some? <==> Flagged(options, call, ancestors)
    ensures report.Some? ==> report.value == NotALiteral
  {
    report := None;
    var allowTHasProtectedConditionals := AllowsGuards(options);
    if NameOf(call.callee) == Some("t") {
      if !HasLiteralKey(call) {
        if allowTHasProtectedConditionals {
          var guarded := IsGuardedByTHas(call, ancestors);
          if guarded {
            return;
          }
        }
        report := Some(NotALiteral);
      }
    }
  }

  /** A literal key is never flagged, whatever the options and ancestors. */
  lemma LiteralKeyNeverFlagged(options: seq<string>, call: Node, ancestors: seq<Node>)
    requires call.CallExpression? && |call.arguments| > 0 && call.arguments[0].Literal?
    ensures !Flagged(options, call, ancestors)
  {
  }

  /** Without the option, every `t` call with a non-literal or missing key is flagged,
      guarded or not. */
  lemma WithoutOptionGuardsIgnored(options: seq<string>, call: Node, ancestors: seq<Node>)
    requires call.CallExpression? && !AllowsGuards(options)
    ensures Flagged(options, call, ancestors)
        <==> NameOf(call.callee) == Some("t") && !HasLiteralKey(call)
  {
  }

  /** `t()` has no key to match a guard, so it is flagged even with the option on. */
  lemma MissingKeyAlwaysFlagged(options: seq<string>, callee: Node, text: string, ancestors: seq<Node>)
    requires NameOf(callee) == Some("t")
    ensures Flagged(options, CallExpression(callee, [], text), ancestors)
  {
    var call := CallExpression(callee, [], text);
    assert forall i :: 0 <= i < |ancestors| ==> !GuardsAt(ancestors[i], call);
  }

  /** `t.has(k)` */
  function THas(k: Node): Node {
    CallExpression(MemberExpression(Identifier("t", "t"), Identifier("has", "has"), "t.has"),
                   [k], "t.has(" + k.text + ")")
  }

  /** `t(k)` */
  function TCall(k: Node): Node {
    CallExpression(Identifier("t", "t"), [k], "t(" + k.text + ")")
  }

  /** The guard's own `t.has(k)` call is visited too, but its callee is a member
      expression with no `name`, so it is never flagged, whatever its argument. */
  lemma THasCallNotFlagged(options: seq<string>, k: Node, ancestors: seq<Node>)
    ensures IsTHasCall(THas(k))
    ensures !Flagged(options, THas(k), ancestors)
  {
  }

  /** With the option on, `t.has(k1) ? ... : ...` around `t(k2)` accepts the call exactly
      when `k1` and `k2` normalise to the same text, in whichever branch the call sits
      and whatever other ancestors enclose the conditional. */
  lemma GuardedCallAccepted(options: seq<string>, k1: Node, k2: Node, thenBranch: Node, elseBranch: Node,
                            text: string, outer: seq<Node>)
    requires AllowsGuards(options) && !k2.Literal?
    requires forall i :: 0 <= i < |outer| ==> !GuardsAt(outer[i], TCall(k2))
    ensures !Flagged(options, TCall(k2), outer + [ConditionalExpression(THas(k1), thenBranch, elseBranch, text)])
        <==> NormalizedSource(k1.text) == NormalizedSource(k2.text)
  {
    var ancestors := outer + [ConditionalExpression(THas(k1), thenBranch, elseBranch, text)];
    assert forall i :: 0 <= i < |outer| ==> ancestors[i] == outer[i];
    assert ancestors[|outer|] == ConditionalExpression(THas(k1), thenBranch, elseBranch, text);
  }

  /** A guard on a key with other non-whitespace text does not protect the call. */
  lemma MismatchedGuardFlagged(options: seq<string>, k1: Node, k2: Node, thenBranch: Node, elseBranch: Node,
                               text: string)
    requires !k2.Literal?
    requires Content(k1.text) != Content(k2.text)
    ensures Flagged(options, TCall(k2), [ConditionalExpression(THas(k1), thenBranch, elseBranch, text)])
  {
    if NormalizedSource(k1.text) == NormalizedSource(k2.text) {
      SameNormalFormSameContent(k1.text, k2.text);
    }
  }

  /** Text without whitespace is its own content. */
  lemma {:induction false} ContentOfWord(s: string)
    requires forall i :: 0 <= i < |s| ==> !IsWhitespace(s[i])
    ensures Content(s) == s
  {
    if s != [] {
      ContentOfWord(s[1..]);
      assert s == [s[0]] + s[1..];
    }
  }

  /** `t.has(keyA) ? t(keyB) : fallback` is flagged even with the option on. */
  lemma DifferentIdentifiersFlagged()
    ensures Flagged([AllowOption], TCall(Identifier("keyB", "keyB")),
                    [ConditionalExpression(THas(Identifier("keyA", "keyA")), TCall(Identifier("keyB", "keyB")),
                                           Identifier("fallback", "fallback"), "t.has(keyA) ? t(keyB) : fallback")])
  {
    var a, b := "keyA", "keyB";
    assert forall i :: 0 <= i < |a| ==> !IsWhitespace(a[i]);
    assert forall i :: 0 <= i < |b| ==> !IsWhitespace(b[i]);
    ContentOfWord(a);
    ContentOfWord(b);
    assert a[3] != b[3];
    MismatchedGuardFlagged([AllowOption], Identifier(a, a), Identifier(b, b),
                           TCall(Identifier(b, b)), Identifier("fallback", "fallback"),
                           "t.has(keyA) ? t(keyB) : fallback");
  }
}
