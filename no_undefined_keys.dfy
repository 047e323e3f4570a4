/**
 * The `CallExpression` visitor of the no-undefined-translation-keys rule
 * (lib/rules/no-undefined-translation-keys.js): which calls it checks, how the prefix,
 * the literal key and an inline `namespace:` are merged into the reference that is
 * looked up, and the report it issues when the lookup is `undefined`.
 */
module NoUndefinedTranslationKeys {
  import opened Estree
  import opened KeyResolver
  import opened ContextAnalyzer

  /** `options?.defaultNamespace || "default"`: an absent or empty option falls back. */
  function DefaultNamespace(option: Option<string>): (ns: string)
    ensures ns != ""
    ensures option.Some? && option.value != "" ==> ns == option.value
    ensures (option.None? || option.value == "") ==> ns == "default"
  {
    if option.Some? && option.value != "" then option.value else "default"
  }

  /** `s.indexOf(c)`: the first position of `c`, or -1. */
  function IndexOf(s: string, c: char): (i: int)
    ensures -1 <= i < |s|
    ensures i == -1 <==> c !in s
    ensures i >= 0 ==> s[i] == c && c !in s[..i]
  {
    if s == [] then -1
    else if s[0] == c then 0
    else
      var j := IndexOf(s[1..], c);
      if j == -1 then -1 else j + 1
  }

  /** The namespace and key that are looked up. */
  datatype Reference = Reference(namespace: string, key: string)

  /** `prefix ? [prefix, literal].join(".") : literal`: the key always ends with the
      literal; it is the literal itself exactly when the prefix is falsy, and otherwise
      starts with the prefix and a dot. */
  function PrefixedKey(prefix: Option<string>, literal: string): (key: string)
    ensures |literal| <= |key| && key[|key| - |literal|..] == literal
    ensures key == literal <==> prefix.None? || prefix.value == ""
    ensures prefix.Some? && prefix.value != "" ==> prefix.value + "." <= key
  {
    if prefix.Some? && prefix.value != "" then prefix.value + "." + literal else literal
  }

  /** The key/namespace normalisation: a `:` in the prefixed key splits it at its first
      occurrence into an explicit namespace and the key, overriding whatever namespace
      was inferred; otherwise the namespace is `inferred ?? default`. */
  function Normalize(literal: string, info: Info, defaultNamespace: string): (r: Reference)
    ensures var key := PrefixedKey(info.prefix, literal);
            if ':' in key then key == r.namespace + ":" + r.key && ':' !in r.namespace
            else r == Reference(info.namespace.GetOr(defaultNamespace), key)
  {
    var key := PrefixedKey(info.prefix, literal);
    var keyWithoutNamespace := if IndexOf(key, ':') == -1 then key else key[IndexOf(key, ':') + 1..];
    var namespace :=
      if key == keyWithoutNamespace then info.namespace.GetOr(defaultNamespace)
      else key[..IndexOf(key, ':')];
    assert ':' in key ==> key == key[..IndexOf(key, ':')] + ":" + keyWithoutNamespace;
    Reference(namespace, keyWithoutNamespace)
  }

  const KeyOpening := "Translation key \""
  const NamespaceOpening := "\" in namespace \""
  const Closing := "\" is used here but missing in the translations file."

  /** The diagnostic for a reference that does not resolve: it quotes the key, then the
      namespace, each between double quotes. */
  function Message(r: Reference): (m: string)
    ensures KeyOpening + r.key + NamespaceOpening <= m
    ensures |m| == |KeyOpening| + |r.key| + |NamespaceOpening| + |r.namespace| + |Closing|
    ensures m[|m| - |Closing| - |r.namespace|..] == r.namespace + Closing
  {
    KeyOpening + r.key + NamespaceOpening + r.namespace + Closing
  }

  /** With the longer namespace free of double quotes, the closing quote before the
      shorter namespace falls, in the other message, inside the longer one. */
  lemma LongerNamespaceDiffers(a: Reference, b: Reference)
    requires '"' !in b.namespace && |a.namespace| < |b.namespace|
    ensures Message(a) != Message(b)
  {
    var ma, mb := Message(a), Message(b);
    if |ma| == |mb| {
      var p := |ma| - |Closing| - |a.namespace| - 1;
      assert ma[..p + 1] == KeyOpening + a.key + NamespaceOpening;
      assert ma[p] == '"';
      var start := |mb| - |Closing| - |b.namespace|;
      assert mb[start..] == b.namespace + Closing;
      assert mb[p] == b.namespace[p - start];
      assert mb[p] != '"';
    }
  }

  /** When namespaces hold no double quote, the message names one reference only: two
      references with the same message are equal. */
  lemma MessageIdentifiesReference(r1: Reference, r2: Reference)
    requires '"' !in r1.namespace && '"' !in r2.namespace
    requires Message(r1) == Message(r2)
    ensures r1 == r2
  {
    var m := Message(r1);
    var tail := |Closing|;
    if |r1.namespace| < |r2.namespace| {
      LongerNamespaceDiffers(r1, r2);
    } else if |r2.namespace| < |r1.namespace| {
      LongerNamespaceDiffers(r2, r1);
    }
    assert r1.namespace == m[|m| - tail - |r1.namespace|..][..|r1.namespace|] == r2.namespace;
    assert r1.key == m[|KeyOpening|..|KeyOpening| + |r1.key|] == r2.key;
  }

  /** The calls the rule examines: callee a bare identifier `t` or `translate`, first
      argument a literal. */
  predicate IsCheckedCall(node: Node) {
    && node.CallExpression?
    && node.callee.Identifier?
    && (node.callee.name == "t" || node.callee.name == "translate")
    && |node.arguments| > 0
    && node.arguments[0].Literal?
  }

  /** The reference a checked call looks up, given its ancestors. */
  function CallReference(node: Node, ancestors: seq<Node>, defaultNamespace: string): Reference
    requires IsCheckedCall(node)
  {
    Normalize(node.arguments[0].literal, Scan(Unset, node.callee.name, ancestors), defaultNamespace)
  }

  /** The `CallExpression` visitor, given the rule's `defaultNamespace` option. A report is
      returned exactly for a checked call whose reference, with the default namespace that
      option yields, resolves to `undefined`, with the message naming that reference. */
  method CheckCallExpression(table: Table, option: Option<string>, node: Node, ancestors: seq<Node>)
    returns (report: Option<string>)
    ensures report.Some? <==>
              IsCheckedCall(node)
              && Resolve(table, CallReference(node, ancestors, DefaultNamespace(option)).namespace,
                         CallReference(node, ancestors, DefaultNamespace(option)).key) == None
    ensures report.Some? ==> report.value == Message(CallReference(node, ancestors, DefaultNamespace(option)))
  {
    var defaultNamespace := DefaultNamespace(option);
    report := None;
    if !node.CallExpression? || !node.callee.Identifier? {
      return;
    }
    var calleeName := node.callee.name;
    if calleeName != "t" && calleeName != "translate" {
      return;
    }
    if |node.arguments| == 0 || !node.arguments[0].Literal? {
      return;
    }
    var info := FindTranslationFunctionInfo(calleeName, ancestors);
    var reference := Normalize(node.arguments[0].literal, info, defaultNamespace);
    var found := GetTranslationKey(table, reference.namespace, reference.key);
    if found == None {
      report := Some(Message(reference));
    }
  }

  /** A string splits at most one way into a colon-free namespace, a colon and the rest. */
  lemma {:induction false} FirstColonSplitUnique(a: string, b: string, c: string, d: string)
    requires ':' !in a && ':' !in c
    requires a + ":" + b == c + ":" + d
    ensures a == c && b == d
  {
    var s := a + ":" + b;
    assert s[|a|] == ':' && s[|c|] == ':';
    assert forall i :: 0 <= i < |a| ==> s[i] == a[i];
    assert forall i :: 0 <= i < |c| ==> s[i] == c[i];
    if |a| == |c| {
      assert a == s[..|a|] == c;
      assert b == s[|a| + 1..] == d;
    }
  }

  /** Explicit `namespace:key` syntax overrides any inferred namespace: with no prefix,
      the literal `ns:key` is looked up as `key` in `ns`. */
  lemma ExplicitNamespaceWins(ns: string, key: string, info: Info, defaultNamespace: string)
    requires ':' !in ns
    requires info.prefix.None? || info.prefix.value == ""
    ensures Normalize(ns + ":" + key, info, defaultNamespace) == Reference(ns, key)
  {
    var r := Normalize(ns + ":" + key, info, defaultNamespace);
    assert (ns + ":" + key)[|ns|] == ':';
    FirstColonSplitUnique(r.namespace, r.key, ns, key);
  }

  /** A truthy prefix is joined to the literal with a dot; without a colon the namespace
      is the inferred one, or the default when none was inferred. */
  lemma PrefixJoinedWithDot(p: string, literal: string, ns: Option<string>, defaultNamespace: string)
    requires p != "" && ':' !in p && ':' !in literal
    ensures Normalize(literal, Info(Some(p), ns), defaultNamespace)
         == Reference(ns.GetOr(defaultNamespace), p + "." + literal)
  {
    assert ':' !in p + "." + literal;
  }

  /** With a truthy prefix the explicit namespace does not win: the prefix is joined
      first, so `ns:key` under prefix `p` is looked up as `key` in namespace `p.ns`,
      whatever namespace was inferred. */
  lemma PrefixGluedToExplicitNamespace(p: string, ns: string, key: string, info: Info, defaultNamespace: string)
    requires p != "" && ':' !in p && ':' !in ns
    requires info.prefix == Some(p)
    ensures Normalize(ns + ":" + key, info, defaultNamespace) == Reference(p + "." + ns, key)
  {
    var literal := ns + ":" + key;
    var glued := p + "." + ns;
    var prefixed := PrefixedKey(info.prefix, literal);
    assert prefixed == p + "." + literal;
    assert prefixed == glued + ":" + key;
    assert prefixed[|glued|] == ':';
    assert ':' in prefixed;
    var r := Normalize(literal, info, defaultNamespace);
    assert prefixed == r.namespace + ":" + r.key && ':' !in r.namespace;
    assert ':' !in glued by {
      assert forall c :: c in glued ==> c in p || c == '.' || c in ns;
    }
    FirstColonSplitUnique(r.namespace, r.key, glued, key);
  }

  /** `callee('literal')` */
  function LiteralCall(callee: string, literal: string): Node {
    CallExpression(Identifier(callee, callee), [Literal(literal, "'" + literal + "'")],
                   callee + "('" + literal + "')")
  }

  /** A default namespace holding `pizza` and `common.appName`. */
  function ExampleTable(): Table {
    map["default" := Branch(map["pizza" := Str("Pizza"),
                                "common" := Branch(map["appName" := Str("My App")])])]
  }

  /** `t('pizza')` finds its key in the default namespace, so it is not reported. */
  lemma FoundKeyNotReported()
    ensures Resolve(ExampleTable(), "default", "pizza") == Some(Str("Pizza"))
  {
    assert Join(["pizza"], '.') == "pizza";
    ExactPathResolves(ExampleTable(), "default", ["pizza"], Str("Pizza"));
  }

  /** Without a prefix or an inferred namespace, a colon-free literal is looked up as
      it is, in the default namespace. */
  lemma PlainLiteralUsesDefault(literal: string, defaultNamespace: string)
    requires ':' !in literal
    ensures Normalize(literal, Unset, defaultNamespace) == Reference(defaultNamespace, literal)
  {
  }

  /** Outside any producer, `t('<literal>')` and `translate('<literal>')` with a
      colon-free literal are checked, as that literal in the default namespace ... */
  lemma MissingKeyLookedUpInDefault(callee: string, literal: string, defaultNamespace: string)
    requires callee == "t" || callee == "translate"
    requires ':' !in literal
    ensures IsCheckedCall(LiteralCall(callee, literal))
    ensures CallReference(LiteralCall(callee, literal), [], defaultNamespace)
         == Reference(defaultNamespace, literal)
  {
    PlainLiteralUsesDefault(literal, defaultNamespace);
  }

  /** ... where it is `undefined`, so the call is reported. */
  lemma MissingKeyIsUndefined()
    ensures Resolve(ExampleTable(), "default", "thisOneIsMissing") == None
  {
    var segs := ["thisOneIsMissing"];
    assert Join(segs, '.') == "thisOneIsMissing";
    assert segs[..0] == [];
    FalsyWithoutPluralsIsUndefined(ExampleTable(), "default", segs);
  }

  /** `const t = await getTranslations("common")` */
  function AccessorDeclarator(): Declarator {
    var call := GetTranslationsCall("common");
    Declarator(Identifier("t", "t"), Some(AwaitExpression(call, "await " + call.text)))
  }

  /** Inside a block declaring `const t = await getTranslations("common")`, `t("<literal>")`
      is looked up as `common.<literal>` in the default namespace: the accessor supplies a
      prefix, not a namespace. This holds whatever else the block holds and whatever
      encloses it, as long as nothing else binds `t` ... */
  lemma AccessorKeyLookedUpInDefault(literal: string, defaultNamespace: string, outer: seq<Node>,
                                     pre: seq<Node>, post: seq<Node>, inner: seq<Node>)
    requires ':' !in literal
    requires BindsNowhere("t", outer) && BindsNowhere("t", inner)
    requires DeclaresNowhere("t", pre) && DeclaresNowhere("t", post)
    ensures IsCheckedCall(LiteralCall("t", literal))
    ensures CallReference(LiteralCall("t", literal), outer + [DeclaringScope(pre, AccessorDeclarator(), post)] + inner,
                          defaultNamespace)
         == Reference(defaultNamespace, "common." + literal)
  {
    GetTranslationsSetsPrefixOnly(Unset, "t", outer, pre, post, inner, "common", true);
    ScanUnbound(Unset, "t", outer);
    assert ':' !in "common";
    PrefixJoinedWithDot("common", literal, None, defaultNamespace);
    assert "common" + "." + literal == "common." + literal;
  }

  /** The ancestors of the call `t(...)` in
      `async function Page() { const t = await getTranslations("common"); return t(...); }`:
      the program, the function declaration, its block and the return statement. */
  function PageAncestors(): seq<Node> {
    var page := OtherNode("async function Page() { ... }");
    var ret := OtherNode("return t(...);");
    [StatementList([page], "{ ... }"), page, DeclaringScope([], AccessorDeclarator(), [ret]), ret]
  }

  /** ... so in that function `t("<literal>")` is looked up as `common.<literal>` in the
      default namespace ... */
  lemma PageKeyLookedUpInDefault(literal: string)
    requires ':' !in literal
    ensures CallReference(LiteralCall("t", literal), PageAncestors(), "default")
         == Reference("default", "common." + literal)
  {
    var page := OtherNode("async function Page() { ... }");
    var ret := OtherNode("return t(...);");
    var program := StatementList([page], "{ ... }");
    var outer := [program, page];
    assert PageAncestors() == outer + [DeclaringScope([], AccessorDeclarator(), [ret])] + [ret];
    OtherNodesBindNowhere("t", [page]);
    assert [program] + [page] == outer;
    OtherNodesBindNowhere("t", [ret]);
    AccessorKeyLookedUpInDefault(literal, "default", outer, [], [ret], [ret]);
  }

  /** Nodes that are neither declarations nor statement lists bind nothing, and neither
      does a statement list made of them. */
  lemma OtherNodesBindNowhere(callee: string, nodes: seq<Node>)
    requires forall n :: n in nodes ==> n.OtherNode?
    ensures DeclaresNowhere(callee, nodes) && BindsNowhere(callee, nodes)
    ensures BindsNowhere(callee, [StatementList(nodes, "{ ... }")] + nodes)
  {
  }

  /** ... where it is `undefined`, so the call is reported. */
  lemma AccessorKeyIsUndefined()
    ensures Resolve(ExampleTable(), "default", "common.missingKey") == None
  {
    var segs := ["common", "missingKey"];
    assert Join(segs, '.') == "common.missingKey";
    assert segs[..1] == ["common"] && ["common"][..0] == [];
    FalsyWithoutPluralsIsUndefined(ExampleTable(), "default", segs);
  }
}
