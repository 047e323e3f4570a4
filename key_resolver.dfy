/**
 * Resolution of a dotted translation key inside one namespace's resource tree, with the
 * plural-suffix fallback at the last segment (`getTranslationKey` and
 * `possiblePluralSuffixes` in lib/rules/no-undefined-translation-keys.js).
 */
module KeyResolver {
  import opened Estree

  /** A loaded translation resource: parsed JSON. Arrays are branches keyed by index; an
      array's own `length` property is not modelled. */
  datatype Tree =
    | Str(s: string)
    | Num(n: real)
    | Bool(b: bool)
    | Null
    | Branch(children: map<string, Tree>)

  /** The namespace → resource table built once per run from the mapping file. */
  type Table = map<string, Tree>

  /** `possiblePluralSuffixes`: seven distinct suffixes, in the order they are tried,
      with `other` last. */
  function PluralSuffixes(): (r: seq<string>)
    ensures |r| == 7 && r[|r| - 1] == "other"
    ensures forall i, j :: 0 <= i < j < |r| ==> r[i] != r[j]
  {
    ["zero", "singular", "one", "two", "few", "many", "other"]
  }

  /** JavaScript truthiness of a looked-up value (`!obj`, `if (obj)`); `undefined` is
      `None`. The falsy values are exactly `undefined`, `null`, `false`, `0` and `""`:
      every object or array is truthy, even an empty one. */
  predicate Truthy(v: Option<Tree>): (b: bool)
    ensures b <==> v.Some? && v.value != Null && v.value != Bool(false) && v.value != Num(0.0) && v.value != Str("")
  {
    match v
    case None => false
    case Some(Str(s)) => s != ""
    case Some(Num(n)) => n != 0.0
    case Some(Bool(b)) => b
    case Some(Null) => false
    case Some(Branch(_)) => true
  }

  /** `obj?.[k]`: only a branch has children; every other value (and `undefined`) yields
      `undefined`. */
  function Child(obj: Option<Tree>, k: string): (r: Option<Tree>)
    ensures r.Some? <==> obj.Some? && obj.value.Branch? && k in obj.value.children
    ensures r.Some? ==> r.value == obj.value.children[k]
  {
    match obj
    case Some(Branch(m)) => if k in m then Some(m[k]) else None
    case _ => None
  }

  /** `translationKeysFromFiles[namespace]` */
  function Root(table: Table, namespace: string): Option<Tree> {
    if namespace in table then Some(table[namespace]) else None
  }

  /** `parts.join(sep)` */
  function Join(parts: seq<string>, sep: char): string {
    if |parts| == 0 then ""
    else if |parts| == 1 then parts[0]
    else parts[0] + [sep] + Join(parts[1..], sep)
  }

  /** `s.split(sep)` for a one-character separator: never empty, its pieces hold no
      separator, and joining them back gives `s`. */
  function Split(s: string, sep: char): (parts: seq<string>)
    ensures |parts| >= 1
    ensures forall i :: 0 <= i < |parts| ==> sep !in parts[i]
    ensures Join(parts, sep) == s
    decreases |s|
  {
    if s == [] then [""]
    else
      var rest := Split(s[1..], sep);
      if s[0] == sep then [""] + rest
      else [[s[0]] + rest[0]] + rest[1..]
  }

  /** Exact descent, one level per segment, with no suffix fallback. */
  function Descend(obj: Option<Tree>, path: seq<string>): Option<Tree>
    decreases |path|
  {
    if path == [] then obj
    else Child(Descend(obj, path[..|path| - 1]), path[|path| - 1])
  }

  /** The segment with the `i`-th plural suffix: `${seg}_${suffix}`. */
  function Suffixed(seg: string, i: nat): string
    requires i < |PluralSuffixes()|
  {
    seg + "_" + PluralSuffixes()[i]
  }

  /** The suffix loop started at suffix `i`: the first truthy suffixed value, or, when
      none is truthy, whatever the last suffix (`other`) looked up. */
  function Fallback(parent: Option<Tree>, seg: string, i: nat): Option<Tree>
    requires i < |PluralSuffixes()|
    decreases |PluralSuffixes()| - i
  {
    var v := Child(parent, Suffixed(seg, i));
    if Truthy(v) || i == |PluralSuffixes()| - 1 then v else Fallback(parent, seg, i + 1)
  }

  /** The last step: the bare segment, retried with the plural suffixes when its value
      is falsy and the segment is non-empty. */
  function LastStep(parent: Option<Tree>, seg: string): Option<Tree> {
    var bare := Child(parent, seg);
    if !Truthy(bare) && seg != "" then Fallback(parent, seg, 0) else bare
  }

  /** The lookup along a non-empty segment list: exact descent through all but the last
      segment, then the last step. */
  function ResolvePath(root: Option<Tree>, segs: seq<string>): Option<Tree>
    requires |segs| >= 1
  {
    LastStep(Descend(root, segs[..|segs| - 1]), segs[|segs| - 1])
  }

  /** What `getTranslationKey(namespace, key)` returns; `None` is `undefined`. */
  function Resolve(table: Table, namespace: string, key: string): Option<Tree> {
    ResolvePath(Root(table, namespace), Split(key, '.'))
  }

  /** `getTranslationKey`: shifts segments off the split key, descending one level each
      time, and at the last segment tries the plural suffixes in order until one is
      truthy. */
  method GetTranslationKey(table: Table, namespace: string, key: string) returns (obj: Option<Tree>)
    ensures obj == Resolve(table, namespace, key)
  {
    obj := Root(table, namespace);
    var arr := Split(key, '.');
    ghost var segs := arr;
    while |arr| > 0
      invariant |arr| <= |segs| && arr == segs[|segs| - |arr|..]
      invariant |arr| > 0 ==> obj == Descend(Root(table, namespace), segs[..|segs| - |arr|])
      invariant |arr| == 0 ==> obj == Resolve(table, namespace, key)
      decreases |arr|
    {
      var keyToAccess := arr[0];
      arr := arr[1..];
      var prevObj := obj;
      obj := Child(obj, keyToAccess);
      ghost var done := segs[..|segs| - |arr|];
      assert done[..|done| - 1] == segs[..|segs| - |arr| - 1] && done[|done| - 1] == keyToAccess;
      if |arr| == 0 && !Truthy(obj) && keyToAccess != "" {
        var i := 0;
        while i < |PluralSuffixes()|
          invariant 0 <= i <= |PluralSuffixes()|
          invariant i < |PluralSuffixes()| ==> Fallback(prevObj, keyToAccess, 0) == Fallback(prevObj, keyToAccess, i)
          invariant i == |PluralSuffixes()| ==> obj == Fallback(prevObj, keyToAccess, 0)
        {
          obj := Child(prevObj, keyToAccess + "_" + PluralSuffixes()[i]);
          if Truthy(obj) {
            break;
          }
          i := i + 1;
        }
      }
    }
  }

  /** A joined list begins with its first piece, followed by the separator when more
      pieces follow. */
  lemma JoinShape(p: seq<string>, sep: char)
    ensures |p| >= 1 ==> |Join(p, sep)| >= |p[0]| && Join(p, sep)[..|p[0]|] == p[0]
    ensures |p| == 1 ==> Join(p, sep) == p[0]
    ensures |p| > 1 ==> |Join(p, sep)| > |p[0]| && Join(p, sep)[|p[0]|] == sep
                        && Join(p, sep)[|p[0]| + 1..] == Join(p[1..], sep)
  {
  }

  /** No separator-free piece list other than the one `Split` returns joins to the same
      string. */
  lemma {:induction false} JoinInjective(p: seq<string>, q: seq<string>, sep: char)
    requires |p| >= 1 && |q| >= 1
    requires forall i :: 0 <= i < |p| ==> sep !in p[i]
    requires forall i :: 0 <= i < |q| ==> sep !in q[i]
    requires Join(p, sep) == Join(q, sep)
    ensures p == q
    decreases |p|
  {
    JoinShape(p, sep);
    JoinShape(q, sep);
    if |p| > 1 && |q| > 1 && |p[0]| == |q[0]| {
      JoinInjective(p[1..], q[1..], sep);
      assert p == [p[0]] + p[1..] && q == [q[0]] + q[1..];
    }
  }

  /** Splitting a joined list of separator-free segments gives the segments back. */
  lemma SplitJoin(parts: seq<string>, sep: char)
    requires |parts| >= 1
    requires forall i :: 0 <= i < |parts| ==> sep !in parts[i]
    ensures Split(Join(parts, sep), sep) == parts
  {
    JoinInjective(Split(Join(parts, sep), sep), parts, sep);
  }

  /** The lookup of a key written as dot-free segments descends through all but the
      last segment and takes the last step on the final one. */
  lemma ResolveSegments(table: Table, namespace: string, segs: seq<string>)
    requires |segs| >= 1
    requires forall i :: 0 <= i < |segs| ==> '.' !in segs[i]
    ensures Resolve(table, namespace, Join(segs, '.'))
         == ResolvePath(Root(table, namespace), segs)
  {
    SplitJoin(segs, '.');
  }

  /** When every segment matches a key exactly and the value reached is truthy, the
      lookup returns that value. */
  lemma ExactPathResolves(table: Table, namespace: string, segs: seq<string>, v: Tree)
    requires |segs| >= 1
    requires forall i :: 0 <= i < |segs| ==> '.' !in segs[i]
    requires Descend(Root(table, namespace), segs) == Some(v) && Truthy(Some(v))
    ensures Resolve(table, namespace, Join(segs, '.')) == Some(v)
  {
    ResolveSegments(table, namespace, segs);
    var parent := Descend(Root(table, namespace), segs[..|segs| - 1]);
    assert Child(parent, segs[|segs| - 1]) == Some(v);
    assert LastStep(parent, segs[|segs| - 1]) == Some(v);
  }

  /** The suffix loop returns the first truthy suffixed value. */
  lemma {:induction false} FallbackFirstTruthy(parent: Option<Tree>, seg: string, i: nat, j: nat)
    requires i <= j < |PluralSuffixes()|
    requires forall k :: i <= k < j ==> !Truthy(Child(parent, Suffixed(seg, k)))
    requires Truthy(Child(parent, Suffixed(seg, j)))
    ensures Fallback(parent, seg, i) == Child(parent, Suffixed(seg, j))
    decreases j - i
  {
    if i < j {
      FallbackFirstTruthy(parent, seg, i + 1, j);
    }
  }

  /** When no suffixed value is truthy, the suffix loop returns the `_other` lookup. */
  lemma {:induction false} FallbackNoneTruthy(parent: Option<Tree>, seg: string, i: nat)
    requires i < |PluralSuffixes()|
    requires forall k :: i <= k < |PluralSuffixes()| ==> !Truthy(Child(parent, Suffixed(seg, k)))
    ensures Fallback(parent, seg, i) == Child(parent, seg + "_other")
    decreases |PluralSuffixes()| - i
  {
    if i < |PluralSuffixes()| - 1 {
      FallbackNoneTruthy(parent, seg, i + 1);
    } else {
      assert Suffixed(seg, i) == seg + "_other";
    }
  }

  /** The suffix loop finds a truthy value exactly when some suffixed sibling from
      suffix `i` on is truthy. */
  lemma {:induction false} FallbackTruthyIff(parent: Option<Tree>, seg: string, i: nat)
    requires i < |PluralSuffixes()|
    ensures Truthy(Fallback(parent, seg, i))
        <==> exists k :: i <= k < |PluralSuffixes()| && Truthy(Child(parent, Suffixed(seg, k)))
    decreases |PluralSuffixes()| - i
  {
    if i < |PluralSuffixes()| - 1 {
      FallbackTruthyIff(parent, seg, i + 1);
    }
  }

  /** When the final segment's bare value is falsy and the segment is non-empty, the
      suffixed siblings are tried on the parent in order and the first truthy one is the
      result. */
  lemma PluralFallbackResolves(table: Table, namespace: string, segs: seq<string>, j: nat)
    requires |segs| >= 1
    requires forall i :: 0 <= i < |segs| ==> '.' !in segs[i]
    requires segs[|segs| - 1] != ""
    requires j < |PluralSuffixes()|
    requires
      var parent := Descend(Root(table, namespace), segs[..|segs| - 1]);
      var last := segs[|segs| - 1];
      && !Truthy(Child(parent, last))
      && (forall k :: 0 <= k < j ==> !Truthy(Child(parent, Suffixed(last, k))))
      && Truthy(Child(parent, Suffixed(last, j)))
    ensures Resolve(table, namespace, Join(segs, '.'))
         == Child(Descend(Root(table, namespace), segs[..|segs| - 1]), Suffixed(segs[|segs| - 1], j))
  {
    SplitJoin(segs, '.');
    FallbackFirstTruthy(Descend(Root(table, namespace), segs[..|segs| - 1]), segs[|segs| - 1], 0, j);
  }

  /** Descending from `undefined` stays `undefined`. */
  lemma {:induction false} DescendUndefined(path: seq<string>)
    ensures Descend(None, path) == None
    decreases |path|
  {
    if path != [] {
      DescendUndefined(path[..|path| - 1]);
    }
  }

  /** Descending along `p + q` is descending along `p`, then along `q`. */
  lemma {:induction false} DescendAppend(obj: Option<Tree>, p: seq<string>, q: seq<string>)
    ensures Descend(obj, p + q) == Descend(Descend(obj, p), q)
    decreases |q|
  {
    if q != [] {
      assert (p + q)[..|p + q| - 1] == p + q[..|q| - 1];
      DescendAppend(obj, p, q[..|q| - 1]);
    } else {
      assert p + q == p;
    }
  }

  /** The suffix loop on an `undefined` parent yields `undefined`. */
  lemma {:induction false} FallbackUndefined(seg: string, i: nat)
    requires i < |PluralSuffixes()|
    ensures Fallback(None, seg, i) == None
    decreases |PluralSuffixes()| - i
  {
    if i < |PluralSuffixes()| - 1 {
      FallbackUndefined(seg, i + 1);
    }
  }

  /** A namespace absent from the table makes every lookup `undefined`. */
  lemma MissingNamespaceIsUndefined(table: Table, namespace: string, key: string)
    requires namespace !in table
    ensures Resolve(table, namespace, key) == None
  {
    var segs := Split(key, '.');
    DescendUndefined(segs[..|segs| - 1]);
    FallbackUndefined(segs[|segs| - 1], 0);
  }

  /** A missing intermediate segment makes the lookup `undefined`: the plural suffixes
      are only tried at the last segment. */
  lemma MissingIntermediateIsUndefined(table: Table, namespace: string, key: string, k: nat)
    requires k < |Split(key, '.')| - 1
    requires Descend(Root(table, namespace), Split(key, '.')[..k + 1]) == None
    ensures Resolve(table, namespace, key) == None
  {
    var segs := Split(key, '.');
    var rest := segs[k + 1..|segs| - 1];
    assert segs[..|segs| - 1] == segs[..k + 1] + rest;
    DescendAppend(Root(table, namespace), segs[..k + 1], rest);
    DescendUndefined(rest);
    FallbackUndefined(segs[|segs| - 1], 0);
  }

  /** A final segment whose value is falsy (absent, or defined as an empty string, `0`,
      `false` or `null`) and that has no suffixed siblings resolves to `undefined`: the
      retry is driven by falsiness, and its last lookup overwrites a defined value. */
  lemma FalsyWithoutPluralsIsUndefined(table: Table, namespace: string, segs: seq<string>)
    requires |segs| >= 1
    requires forall i :: 0 <= i < |segs| ==> '.' !in segs[i]
    requires segs[|segs| - 1] != ""
    requires
      var parent := Descend(Root(table, namespace), segs[..|segs| - 1]);
      var last := segs[|segs| - 1];
      && !Truthy(Child(parent, last))
      && (forall k :: 0 <= k < |PluralSuffixes()| ==> Child(parent, Suffixed(last, k)) == None)
    ensures Resolve(table, namespace, Join(segs, '.')) == None
  {
    SplitJoin(segs, '.');
    FalsyWithoutPluralsStep(Descend(Root(table, namespace), segs[..|segs| - 1]), segs[|segs| - 1]);
  }

  lemma FalsyWithoutPluralsStep(parent: Option<Tree>, last: string)
    requires last != "" && !Truthy(Child(parent, last))
    requires forall k :: 0 <= k < |PluralSuffixes()| ==> Child(parent, Suffixed(last, k)) == None
    ensures LastStep(parent, last) == None
  {
    FallbackNoneTruthy(parent, last, 0);
    assert Suffixed(last, |PluralSuffixes()| - 1) == last + "_other";
  }

  /** An empty final segment (a key ending in `.`) is looked up bare, with no suffix
      retry, whatever its value. */
  lemma EmptyLastSegmentIsBare(table: Table, namespace: string, segs: seq<string>)
    requires |segs| >= 1
    requires forall i :: 0 <= i < |segs| ==> '.' !in segs[i]
    requires segs[|segs| - 1] == ""
    ensures Resolve(table, namespace, Join(segs, '.')) == Descend(Root(table, namespace), segs)
  {
    ResolveSegments(table, namespace, segs);
    var parent := Descend(Root(table, namespace), segs[..|segs| - 1]);
    assert Descend(Root(table, namespace), segs) == Child(parent, "");
    assert LastStep(parent, "") == Child(parent, "");
  }

  /** `t('distance.milesAway')` against `{"distance": {"milesAway_one": ..., "milesAway_other": ...}}`
      resolves through `milesAway_one`. */
  lemma PluralExample()
    ensures
      var distance := Branch(map["milesAway_one" := Str("{{count}} mile"),
                                 "milesAway_other" := Str("{{count}} miles")]);
      var table := map["default" := Branch(map["distance" := distance])];
      Resolve(table, "default", "distance.milesAway") == Some(Str("{{count}} mile"))
  {
    var distance := Branch(map["milesAway_one" := Str("{{count}} mile"),
                               "milesAway_other" := Str("{{count}} miles")]);
    var table := map["default" := Branch(map["distance" := distance])];
    var segs := ["distance", "milesAway"];
    assert Join(segs, '.') == "distance.milesAway";
    assert Descend(Root(table, "default"), segs[..1]) == Some(distance);
    assert Suffixed("milesAway", 0) == "milesAway_zero";
    assert Suffixed("milesAway", 1) == "milesAway_singular";
    assert Suffixed("milesAway", 2) == "milesAway_one";
    PluralFallbackResolves(table, "default", segs, 2);
  }

  /** `{"title": ""}`: the key `title` is defined, yet its lookup is `undefined`, so a
      call using it is reported as missing. */
  lemma EmptyTranslationIsUndefined()
    ensures Resolve(map["default" := Branch(map["title" := Str("")])], "default", "title") == None
  {
    var table := map["default" := Branch(map["title" := Str("")])];
    assert Join(["title"], '.') == "title";
    assert ["title"][..0] == [];
    FalsyWithoutPluralsIsUndefined(table, "default", ["title"]);
  }
}
