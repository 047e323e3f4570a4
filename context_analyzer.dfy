/**
 * Recovery of the key prefix and namespace that a translation function was created with
 * (`findTranslationFunctionInfo` in lib/rules/no-undefined-translation-keys.js).
 *
 * The ancestors of the call are visited outermost first. In each one whose `body` is a
 * statement list, every variable declarator is examined twice: first a pass over the
 * declarators that bind the callee name directly, then a pass over those that
 * destructure it from an object pattern. Every matching declarator overwrites the
 * prefix and/or the namespace, so the last match visited wins.
 */
module ContextAnalyzer {
  import opened Estree

  /** `{ prefix, namespace }`; `None` is `null` or `undefined`. */
  datatype Info = Info(prefix: Option<string>, namespace: Option<string>)

  const Unset := Info(None, None)

  /** The two passes made over each ancestor's declarations, in this order. */
  datatype Pass = Plain | Destructuring

  /** `properties.find(p => p.key?.name === name)` */
  function FindProperty(props: seq<Node>, name: string): (r: Option<Node>)
    ensures r.Some? ==> r.value.Property? && NameOf(r.value.key) == Some(name)
    ensures r.Some? <==> exists i :: 0 <= i < |props| && props[i].Property? && NameOf(props[i].key) == Some(name)
    ensures r.Some? ==> exists i :: && 0 <= i < |props| && props[i] == r.value
                                    && forall j :: 0 <= j < i ==> !(props[j].Property? && NameOf(props[j].key) == Some(name))
  {
    if props == [] then None
    else if props[0].Property? && NameOf(props[0].key) == Some(name) then Some(props[0])
    else FindProperty(props[1..], name)
  }

  /** `n?.properties` */
  function PropertiesOf(n: Option<Node>): seq<Node> {
    match n
    case Some(ObjectExpression(props, _)) => props
    case Some(ObjectPattern(props, _)) => props
    case _ => []
  }

  /** `init?.arguments[1]?.properties?.find(p => p.key?.name === "keyPrefix")?.value?.value` */
  function KeyPrefixOf(init: Option<Node>): Option<string> {
    match FindProperty(PropertiesOf(ArgumentAt(init, 1)), "keyPrefix")
    case Some(p) => LiteralValue(p.value)
    case None => None
  }

  /** What a `useTranslation(ns, { keyPrefix })` initialiser writes: both fields. */
  function HookInfo(init: Option<Node>): Info {
    Info(KeyPrefixOf(init), ArgumentValue(init, 0))
  }

  /** The name an object-pattern member binds: `prop.value?.name || prop.key?.name`. */
  function PatternName(prop: Node): Option<string> {
    var v := if prop.Property? then NameOf(prop.value) else None;
    var k := if prop.Property? then NameOf(prop.key) else None;
    if v.Some? && v.value != "" then v else k
  }

  /** `properties.some(prop => (prop.value?.name || prop.key?.name) === name)` */
  predicate PatternBinds(props: seq<Node>, name: string) {
    exists i :: 0 <= i < |props| && PatternName(props[i]) == Some(name)
  }

  /** The `await getTranslations(x)` initialiser's inner call, if that is its shape. */
  function AwaitedGetTranslations(init: Option<Node>): Option<Node> {
    match init
    case Some(AwaitExpression(arg, _)) =>
      if CalleeName(Some(arg)) == Some("getTranslations") then Some(arg) else None
    case _ => None
  }

  /** The effect of one declarator in the plain pass: when it binds `callee` directly,
      a `useTranslation` initialiser sets both fields, and an awaited or plain
      `getTranslations` initialiser sets the prefix only. */
  function PlainStep(info: Info, callee: string, d: Declarator): Info {
    if NameOf(d.id) != Some(callee) then info
    else
      var afterHook := if CalleeName(d.init) == Some("useTranslation") then HookInfo(d.init) else info;
      var afterAwait :=
        match AwaitedGetTranslations(d.init)
        case Some(call) => afterHook.(prefix := ArgumentValue(Some(call), 0))
        case None => afterHook;
      if CalleeName(d.init) == Some("getTranslations") then afterAwait.(prefix := ArgumentValue(d.init, 0))
      else afterAwait
  }

  /** The effect of one declarator in the destructuring pass: an object pattern that
      binds `callee`, initialised by `useTranslation`, sets both fields. */
  function PatternStep(info: Info, callee: string, d: Declarator): Info {
    if d.id.ObjectPattern? && PatternBinds(d.id.properties, callee)
       && CalleeName(d.init) == Some("useTranslation")
    then HookInfo(d.init)
    else info
  }

  function Step(pass: Pass, info: Info, callee: string, d: Declarator): Info {
    match pass
    case Plain => PlainStep(info, callee, d)
    case Destructuring => PatternStep(info, callee, d)
  }

  /** One pass over the declarators of one statement. */
  function DeclaratorsPass(pass: Pass, info: Info, callee: string, ds: seq<Declarator>): Info
    decreases |ds|
  {
    if ds == [] then info
    else Step(pass, DeclaratorsPass(pass, info, callee, ds[..|ds| - 1]), callee, ds[|ds| - 1])
  }

  /** One pass over the statements of one ancestor's body. */
  function StatementsPass(pass: Pass, info: Info, callee: string, body: seq<Node>): Info
    decreases |body|
  {
    if body == [] then info
    else DeclaratorsPass(pass, StatementsPass(pass, info, callee, body[..|body| - 1]), callee,
                         DeclarationsOf(body[|body| - 1]))
  }

  /** Both passes over one ancestor, the plain one first. */
  function ScanAncestor(info: Info, callee: string, ancestor: Node): Info {
    var body := BodyOf(ancestor);
    StatementsPass(Destructuring, StatementsPass(Plain, info, callee, body), callee, body)
  }

  /** All ancestors, outermost first. */
  function Scan(info: Info, callee: string, ancestors: seq<Node>): Info
    decreases |ancestors|
  {
    if ancestors == [] then info
    else ScanAncestor(Scan(info, callee, ancestors[..|ancestors| - 1]), callee, ancestors[|ancestors| - 1])
  }

  /** The plain-pass callback on one declarator: three independent `if`s, in order. */
  method VisitPlainDeclarator(info: Info, calleeName: string, declaration: Declarator) returns (next: Info)
    ensures next == PlainStep(info, calleeName, declaration)
  {
    var prefix, namespace := info.prefix, info.namespace;
    if NameOf(declaration.id) == Some(calleeName) {
      if CalleeName(declaration.init) == Some("useTranslation") {
        prefix := KeyPrefixOf(declaration.init);
        namespace := ArgumentValue(declaration.init, 0);
      }
      if declaration.init.Some? && declaration.init.value.AwaitExpression?
         && CalleeName(Some(declaration.init.value.argument)) == Some("getTranslations")
      {
        prefix := ArgumentValue(Some(declaration.init.value.argument), 0);
      }
      if CalleeName(declaration.init) == Some("getTranslations") {
        prefix := ArgumentValue(declaration.init, 0);
      }
    }
    next := Info(prefix, namespace);
  }

  /** The destructuring-pass callback on one declarator. */
  method VisitPatternDeclarator(info: Info, calleeName: string, declaration: Declarator) returns (next: Info)
    ensures next == PatternStep(info, calleeName, declaration)
  {
    next := info;
    if declaration.id.ObjectPattern? {
      var props := declaration.id.properties;
      var hasMatchingProperty := exists i | 0 <= i < |props| :: PatternName(props[i]) == Some(calleeName);
      if hasMatchingProperty && CalleeName(declaration.init) == Some("useTranslation") {
        next := HookInfo(declaration.init);
      }
    }
  }

  /** One pass over an ancestor's body: `body.forEach(s => s.declarations.forEach(...))`. */
  method VisitBody(pass: Pass, info: Info, calleeName: string, body: seq<Node>) returns (next: Info)
    ensures next == StatementsPass(pass, info, calleeName, body)
  {
    next := info;
    var s := 0;
    while s < |body|
      invariant s <= |body|
      invariant next == StatementsPass(pass, info, calleeName, body[..s])
    {
      var decls := DeclarationsOf(body[s]);
      ghost var beforeStatement := next;
      var d := 0;
      while d < |decls|
        invariant d <= |decls|
        invariant next == DeclaratorsPass(pass, beforeStatement, calleeName, decls[..d])
      {
        match pass {
          case Plain => next := VisitPlainDeclarator(next, calleeName, decls[d]);
          case Destructuring => next := VisitPatternDeclarator(next, calleeName, decls[d]);
        }
        assert decls[..d + 1][..d] == decls[..d];
        d := d + 1;
      }
      assert decls[..d] == decls;
      assert body[..s + 1][..s] == body[..s];
      s := s + 1;
    }
    assert body[..s] == body;
  }

  /** `findTranslationFunctionInfo(node, ancestors)` for a call whose callee is named
      `calleeName`: for each ancestor, outermost first, the plain pass and then the
      destructuring pass overwrite `prefix` and `namespace`. */
  method FindTranslationFunctionInfo(calleeName: string, ancestors: seq<Node>) returns (info: Info)
    ensures info == Scan(Unset, calleeName, ancestors)
  {
    info := Unset;
    var a := 0;
    while a < |ancestors|
      invariant a <= |ancestors|
      invariant info == Scan(Unset, calleeName, ancestors[..a])
    {
      var body := BodyOf(ancestors[a]);
      info := VisitBody(Plain, info, calleeName, body);
      info := VisitBody(Destructuring, info, calleeName, body);
      assert ancestors[..a + 1][..a] == ancestors[..a];
      a := a + 1;
    }
    assert ancestors[..a] == ancestors;
  }

  /** Whether declarator `d` binds `callee`, directly or by destructuring. */
  predicate Binds(callee: string, d: Declarator) {
    NameOf(d.id) == Some(callee) || (d.id.ObjectPattern? && PatternBinds(d.id.properties, callee))
  }

  /** No declarator in any statement list of `ancestors` binds `callee`. */
  predicate BindsNowhere(callee: string, ancestors: seq<Node>) {
    forall a, s, d :: a in ancestors && s in BodyOf(a) && d in DeclarationsOf(s) ==> !Binds(callee, d)
  }

  lemma {:induction false} DeclaratorsPassUnbound(pass: Pass, info: Info, callee: string, ds: seq<Declarator>)
    requires forall d :: d in ds ==> !Binds(callee, d)
    ensures DeclaratorsPass(pass, info, callee, ds) == info
    decreases |ds|
  {
    if ds != [] {
      assert ds[|ds| - 1] in ds;
      DeclaratorsPassUnbound(pass, info, callee, ds[..|ds| - 1]);
    }
  }

  lemma {:induction false} StatementsPassUnbound(pass: Pass, info: Info, callee: string, body: seq<Node>)
    requires forall s, d :: s in body && d in DeclarationsOf(s) ==> !Binds(callee, d)
    ensures StatementsPass(pass, info, callee, body) == info
    decreases |body|
  {
    if body != [] {
      assert body[|body| - 1] in body;
      StatementsPassUnbound(pass, info, callee, body[..|body| - 1]);
      DeclaratorsPassUnbound(pass, info, callee, DeclarationsOf(body[|body| - 1]));
    }
  }

  /** Ancestors that declare nothing binding the callee name leave the prefix and the
      namespace as they were; in particular, with no binding at all both stay unset. */
  lemma {:induction false} ScanUnbound(info: Info, callee: string, ancestors: seq<Node>)
    requires BindsNowhere(callee, ancestors)
    ensures Scan(info, callee, ancestors) == info
    decreases |ancestors|
  {
    if ancestors != [] {
      var last := ancestors[|ancestors| - 1];
      assert last in ancestors;
      ScanUnbound(info, callee, ancestors[..|ancestors| - 1]);
      StatementsPassUnbound(Plain, info, callee, BodyOf(last));
      StatementsPassUnbound(Destructuring, info, callee, BodyOf(last));
    }
  }

  /** Scanning `outer + inner` is scanning `outer`, then `inner` from where it left off. */
  lemma {:induction false} ScanAppend(info: Info, callee: string, outer: seq<Node>, inner: seq<Node>)
    ensures Scan(info, callee, outer + inner) == Scan(Scan(info, callee, outer), callee, inner)
    decreases |inner|
  {
    if inner == [] {
      assert outer + inner == outer;
    } else {
      assert (outer + inner)[..|outer + inner| - 1] == outer + inner[..|inner| - 1];
      ScanAppend(info, callee, outer, inner[..|inner| - 1]);
    }
  }

  /** No declarator of any statement in `stmts` binds `callee`. */
  predicate DeclaresNowhere(callee: string, stmts: seq<Node>) {
    forall s, d :: s in stmts && d in DeclarationsOf(s) ==> !Binds(callee, d)
  }

  /** A pass over `a + b` is a pass over `a`, then over `b` from where it left off. */
  lemma {:induction false} StatementsPassAppend(pass: Pass, info: Info, callee: string, a: seq<Node>, b: seq<Node>)
    ensures StatementsPass(pass, info, callee, a + b)
         == StatementsPass(pass, StatementsPass(pass, info, callee, a), callee, b)
    decreases |b|
  {
    if b == [] {
      assert a + b == a;
    } else {
      assert (a + b)[..|a + b| - 1] == a + b[..|b| - 1];
      assert (a + b)[|a + b| - 1] == b[|b| - 1];
      StatementsPassAppend(pass, info, callee, a, b[..|b| - 1]);
    }
  }

  /** A block whose statements are `pre`, then the declaration `const <d>;`, then `post`
      (typically the statement that holds the call). */
  function DeclaringScope(pre: seq<Node>, d: Declarator, post: seq<Node>): Node {
    StatementList(pre + [VariableDeclaration([d], "const ...;")] + post, "{ ... }")
  }

  /** One pass over such a block, when no statement around the declaration binds the
      callee name, is the step on its declarator. */
  lemma DeclaringScopePass(pass: Pass, info: Info, callee: string, pre: seq<Node>, d: Declarator, post: seq<Node>)
    requires DeclaresNowhere(callee, pre) && DeclaresNowhere(callee, post)
    ensures StatementsPass(pass, info, callee, BodyOf(DeclaringScope(pre, d, post))) == Step(pass, info, callee, d)
  {
    var decl := VariableDeclaration([d], "const ...;");
    StatementsPassAppend(pass, info, callee, pre + [decl], post);
    StatementsPassAppend(pass, info, callee, pre, [decl]);
    StatementsPassUnbound(pass, info, callee, pre);
    assert [decl][..0] == [] && [d][..0] == [];
    assert DeclarationsOf(decl) == [d];
    assert DeclaratorsPass(pass, info, callee, [d]) == Step(pass, info, callee, d);
    assert StatementsPass(pass, info, callee, [decl]) == DeclaratorsPass(pass, info, callee, [d]);
    StatementsPassUnbound(pass, Step(pass, info, callee, d), callee, post);
  }

  /** A declaring block decides the result on its own when nothing around the
      declaration, and no ancestor inside the block, binds the callee name: the two
      passes over it reduce to the two steps on its declarator, applied to what the
      outer ancestors left. */
  lemma ScanDeclaringScope(info: Info, callee: string, outer: seq<Node>, pre: seq<Node>, d: Declarator,
                           post: seq<Node>, inner: seq<Node>)
    requires DeclaresNowhere(callee, pre) && DeclaresNowhere(callee, post)
    requires BindsNowhere(callee, inner)
    ensures Scan(info, callee, outer + [DeclaringScope(pre, d, post)] + inner)
         == PatternStep(PlainStep(Scan(info, callee, outer), callee, d), callee, d)
  {
    var scope := DeclaringScope(pre, d, post);
    ScanAppend(info, callee, outer + [scope], inner);
    ScanUnbound(Scan(info, callee, outer + [scope]), callee, inner);
    assert (outer + [scope])[..|outer|] == outer;
    var before := Scan(info, callee, outer);
    assert Scan(info, callee, outer + [scope]) == ScanAncestor(before, callee, scope);
    DeclaringScopePass(Plain, before, callee, pre, d, post);
    DeclaringScopePass(Destructuring, PlainStep(before, callee, d), callee, pre, d, post);
  }

  /** `useTranslation(ns, { keyPrefix: p })` */
  function UseTranslationCall(ns: string, p: string): Node {
    CallExpression(Identifier("useTranslation", "useTranslation"),
                   [Literal(ns, "\"" + ns + "\""),
                    ObjectExpression([Property(Identifier("keyPrefix", "keyPrefix"), Literal(p, "\"" + p + "\""),
                                               "keyPrefix: \"" + p + "\"")],
                                     "{ keyPrefix: \"" + p + "\" }")],
                   "useTranslation(...)")
  }

  /** `getTranslations(x)` */
  function GetTranslationsCall(x: string): Node {
    CallExpression(Identifier("getTranslations", "getTranslations"), [Literal(x, "\"" + x + "\"")],
                   "getTranslations(\"" + x + "\")")
  }

  /** `callee` itself, or the pattern `{ k: callee }` (`{ callee }` when `k == callee`). */
  function Binding(callee: string, destructuredFrom: Option<string>): Node {
    match destructuredFrom
    case None => Identifier(callee, callee)
    case Some(k) => ObjectPattern([Property(Identifier(k, k), Identifier(callee, callee), k + ": " + callee)],
                                  "{ " + k + ": " + callee + " }")
  }

  /** A `useTranslation(ns, { keyPrefix: p })` initialiser is a hook call, not an
      accessor, and carries prefix `p` and namespace `ns`. */
  lemma UseTranslationInit(ns: string, p: string)
    ensures var init := Some(UseTranslationCall(ns, p));
            && CalleeName(init) == Some("useTranslation")
            && AwaitedGetTranslations(init) == None
            && HookInfo(init) == Info(Some(p), Some(ns))
  {
    var init := Some(UseTranslationCall(ns, p));
    assert FindProperty(PropertiesOf(ArgumentAt(init, 1)), "keyPrefix").Some?;
  }

  /** The two steps on `t = useTranslation(...)`: the plain pass sets both fields. */
  lemma UseTranslationDirectSteps(before: Info, callee: string, ns: string, p: string)
    ensures var d := Declarator(Binding(callee, None), Some(UseTranslationCall(ns, p)));
            PatternStep(PlainStep(before, callee, d), callee, d) == Info(Some(p), Some(ns))
  {
    var d := Declarator(Binding(callee, None), Some(UseTranslationCall(ns, p)));
    UseTranslationInit(ns, p);
    assert NameOf(d.id) == Some(callee);
    assert PlainStep(before, callee, d) == Info(Some(p), Some(ns));
  }

  /** The two steps on `{ k: t } = useTranslation(...)`: the destructuring pass sets
      both fields. */
  lemma UseTranslationPatternSteps(before: Info, callee: string, k: string, ns: string, p: string)
    requires callee != ""
    ensures var d := Declarator(Binding(callee, Some(k)), Some(UseTranslationCall(ns, p)));
            PatternStep(PlainStep(before, callee, d), callee, d) == Info(Some(p), Some(ns))
  {
    var d := Declarator(Binding(callee, Some(k)), Some(UseTranslationCall(ns, p)));
    UseTranslationInit(ns, p);
    assert NameOf(d.id) == None;
    assert PlainStep(before, callee, d) == before;
    assert PatternName(d.id.properties[0]) == Some(callee);
  }

  /** `const t = useTranslation(ns, { keyPrefix: p })`, or `const { t } = ...`, or
      `const { x: t } = ...`, in an enclosing block yields namespace `ns` and prefix `p`,
      whatever outer scopes declared, provided nothing else in that block and no
      ancestor inside it rebinds the name. */
  lemma UseTranslationSetsBoth(info: Info, callee: string, outer: seq<Node>, pre: seq<Node>, post: seq<Node>,
                               inner: seq<Node>, ns: string, p: string, destructuredFrom: Option<string>)
    requires callee != ""
    requires DeclaresNowhere(callee, pre) && DeclaresNowhere(callee, post)
    requires BindsNowhere(callee, inner)
    ensures Scan(info, callee, outer + [DeclaringScope(pre, Declarator(Binding(callee, destructuredFrom),
                                                                       Some(UseTranslationCall(ns, p))), post)] + inner)
         == Info(Some(p), Some(ns))
  {
    var d := Declarator(Binding(callee, destructuredFrom), Some(UseTranslationCall(ns, p)));
    ScanDeclaringScope(info, callee, outer, pre, d, post, inner);
    match destructuredFrom {
      case None => UseTranslationDirectSteps(Scan(info, callee, outer), callee, ns, p);
      case Some(k) => UseTranslationPatternSteps(Scan(info, callee, outer), callee, k, ns, p);
    }
  }

  /** `const t = await getTranslations(x)` and `const t = getTranslations(x)` in an
      enclosing block set the prefix to `x` and leave the namespace as outer scopes left
      it (unset when nothing outside binds the name), provided nothing else in that block
      and no ancestor inside it rebinds the name. */
  lemma GetTranslationsSetsPrefixOnly(info: Info, callee: string, outer: seq<Node>, pre: seq<Node>,
                                      post: seq<Node>, inner: seq<Node>, x: string, awaited: bool)
    requires DeclaresNowhere(callee, pre) && DeclaresNowhere(callee, post)
    requires BindsNowhere(callee, inner)
    ensures
      var call := GetTranslationsCall(x);
      var init := if awaited then AwaitExpression(call, "await " + call.text) else call;
      Scan(info, callee, outer + [DeclaringScope(pre, Declarator(Identifier(callee, callee), Some(init)), post)] + inner)
        == Info(Some(x), Scan(info, callee, outer).namespace)
  {
    var call := GetTranslationsCall(x);
    var init := if awaited then AwaitExpression(call, "await " + call.text) else call;
    var d := Declarator(Identifier(callee, callee), Some(init));
    ScanDeclaringScope(info, callee, outer, pre, d, post, inner);
    GetTranslationsStep(Scan(info, callee, outer), callee, x, awaited);
  }

  /** The two steps on `t = getTranslations(x)`, awaited or not: the plain pass sets
      the prefix only. */
  lemma GetTranslationsStep(before: Info, callee: string, x: string, awaited: bool)
    ensures
      var call := GetTranslationsCall(x);
      var init := if awaited then AwaitExpression(call, "await " + call.text) else call;
      var d := Declarator(Identifier(callee, callee), Some(init));
      PatternStep(PlainStep(before, callee, d), callee, d) == Info(Some(x), before.namespace)
  {
    var call := GetTranslationsCall(x);
    var init := if awaited then AwaitExpression(call, "await " + call.text) else call;
    var d := Declarator(Identifier(callee, callee), Some(init));
    assert ArgumentValue(Some(call), 0) == Some(x);
    if awaited {
      assert CalleeName(d.init) == None;
      assert AwaitedGetTranslations(d.init) == Some(call);
    } else {
      assert CalleeName(d.init) == Some("getTranslations");
      assert AwaitedGetTranslations(d.init) == None;
    }
    assert PlainStep(before, callee, d) == Info(Some(x), before.namespace);
  }

  /** A pass over a two-statement body. */
  lemma StatementsPassPair(pass: Pass, info: Info, callee: string, s0: Node, s1: Node)
    ensures StatementsPass(pass, info, callee, [s0, s1])
         == DeclaratorsPass(pass, DeclaratorsPass(pass, info, callee, DeclarationsOf(s0)), callee, DeclarationsOf(s1))
  {
    assert [s0, s1][..1] == [s0] && [s0][..0] == [];
    assert StatementsPass(pass, info, callee, [s0]) == DeclaratorsPass(pass, info, callee, DeclarationsOf(s0));
  }

  /** Within one scope the destructuring pass runs after the plain pass, so a
      destructured `useTranslation` wins over a plain `getTranslations` written after it. */
  lemma DestructuringPassRunsLast()
    ensures
      var hook := Declarator(Binding("t", Some("t")), Some(UseTranslationCall("a", "p")));
      var accessor := Declarator(Identifier("t", "t"), Some(GetTranslationsCall("q")));
      var scope := StatementList([VariableDeclaration([hook], "const { t } = ...;"),
                                  VariableDeclaration([accessor], "const t = ...;")], "{ ... }");
      Scan(Unset, "t", [scope]) == Info(Some("p"), Some("a"))
  {
    var hook := Declarator(Binding("t", Some("t")), Some(UseTranslationCall("a", "p")));
    var accessor := Declarator(Identifier("t", "t"), Some(GetTranslationsCall("q")));
    var body := [VariableDeclaration([hook], "const { t } = ...;"),
                 VariableDeclaration([accessor], "const t = ...;")];
    var scope := StatementList(body, "{ ... }");
    assert body[..1] == [body[0]] && body[..1][..0] == [];
    assert [hook][..0] == [] && [accessor][..0] == [];
    assert PatternName(hook.id.properties[0]) == Some("t");
    assert FindProperty(PropertiesOf(ArgumentAt(hook.init, 1)), "keyPrefix").Some?;
    assert HookInfo(hook.init) == Info(Some("p"), Some("a"));
    var s0 := body[0];
    var s1 := body[1];
    assert DeclarationsOf(s0) == [hook] && DeclarationsOf(s1) == [accessor];
    // The plain pass: the pattern is skipped, `getTranslations("q")` sets the prefix.
    var afterPlain := Info(Some("q"), None);
    assert PlainStep(Unset, "t", hook) == Unset;
    assert PlainStep(Unset, "t", accessor) == afterPlain;
    StatementsPassPair(Plain, Unset, "t", s0, s1);
    assert DeclaratorsPass(Plain, Unset, "t", [hook]) == Unset;
    assert DeclaratorsPass(Plain, Unset, "t", [accessor]) == afterPlain;
    // The destructuring pass: the pattern overwrites both fields.
    var hooked := Info(Some("p"), Some("a"));
    assert PatternStep(afterPlain, "t", hook) == hooked;
    assert PatternStep(hooked, "t", accessor) == hooked;
    StatementsPassPair(Destructuring, afterPlain, "t", s0, s1);
    assert DeclaratorsPass(Destructuring, afterPlain, "t", [hook]) == hooked;
    assert DeclaratorsPass(Destructuring, hooked, "t", [accessor]) == hooked;
    assert [scope][..0] == [];
  }

  /** The two fields are overwritten separately: an inner `getTranslations(q)` replaces
      the prefix of an outer `useTranslation("a", { keyPrefix: "p" })` but keeps its
      namespace. */
  lemma FieldsOverwrittenSeparately(callee: string)
    requires callee != ""
    ensures
      var outer := DeclaringScope([], Declarator(Identifier(callee, callee), Some(UseTranslationCall("a", "p"))), []);
      var inner := DeclaringScope([], Declarator(Identifier(callee, callee), Some(GetTranslationsCall("q"))), []);
      Scan(Unset, callee, [outer, inner]) == Info(Some("q"), Some("a"))
  {
    var outer := DeclaringScope([], Declarator(Identifier(callee, callee), Some(UseTranslationCall("a", "p"))), []);
    var inner := DeclaringScope([], Declarator(Identifier(callee, callee), Some(GetTranslationsCall("q"))), []);
    UseTranslationSetsBoth(Unset, callee, [], [], [], [], "a", "p", None);
    assert [] + [outer] + [] == [outer];
    GetTranslationsSetsPrefixOnly(Unset, callee, [outer], [], [], [], "q", false);
    assert [outer] + [inner] + [] == [outer, inner];
  }
}
