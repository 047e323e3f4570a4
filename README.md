# eslint-plugin-i18next-aid rules, modelled in Dafny

This project models the two ESLint rules of eslint-plugin-i18next-aid.

- **no-undefined-translation-keys** (lib/rules/no-undefined-translation-keys.js) examines a call `t('literal')` or `translate('literal')`.
  - It recovers the key prefix and namespace the translation function was created with. The producers are `useTranslation(ns, { keyPrefix })`, `await getTranslations(x)` and `getTranslations(x)`.
  - It merges the prefix, the literal and an inline `namespace:` into one reference.
  - It resolves the dotted key in that namespace's translation tree, retrying the plural suffixes at the last segment.
  - It reports the call when the lookup is `undefined`.
- **translation-key-string-literal** (lib/rules/translation-key-string-literal.js) reports a call `t(key)` whose first argument is not a string literal.
  - With the `allow-t-has-protected-conditionals` option on, the call is accepted when an enclosing conditional tests `t.has(key2)`.
  - `key2` must have the same source text as `key` once whitespace is normalised.

Modules, one per file:

- `Estree` (estree.dfy): the subset of the syntax tree the rules read, with the duck-typed `?.` reads. JavaScript `undefined` and `null` are both `None`.
- `KeyResolver` (key_resolver.dfy): the translation tree and the key lookup.
  - `GetTranslationKey` is the source's `while` loop with its suffix `for` loop.
  - It is proved equal to the specification function `Resolve`.
- `ContextAnalyzer` (context_analyzer.dfy): the prefix/namespace recovery.
  - `FindTranslationFunctionInfo` is the source's nested `forEach` loops.
  - It is proved equal to the fold `Scan`.
- `NoUndefinedTranslationKeys` (no_undefined_keys.dfy): the key/namespace normalisation and the report decision.
- `TranslationKeyStringLiteral` (string_literal_rule.dfy): whitespace normalisation, the `t.has` guard search as a loop, and the report decision.

Behaviour of the code that a reader might not expect. The model follows the code in each case.

- The plural retry is triggered by a *falsy* bare value, not only by a missing one.
  - A key defined as `""`, `0`, `false` or `null` with no suffixed siblings therefore resolves to `undefined` and is reported as missing.
  - When no suffixed value is truthy, the result is whatever the `_other` lookup gave.
- `getTranslations(x)`, awaited or not, sets only the prefix. A call through it is looked up in the default namespace under `x.<key>`, unless an outer `useTranslation` set a namespace.
- The `t.has` guard does not examine which branch of the conditional holds the call. It accepts a match on any enclosing conditional, searched from the innermost outwards.
- Only `useTranslation` and `getTranslations` are recognised as producers. The repository's tests expect `useTranslations(x)` to behave like `getTranslations(x)` (tests/lib/rules/no-undefined-translation-keys.js:130-156, 269-299). The code as written does not do this, and the model follows the code.
- An inline namespace does not win over a prefix. The prefix is joined to the literal before the key is split at its first `:`, so under `getTranslations("common")` the call `t("other:appName")` is looked up as `appName` in namespace `common.other`.
- A key split on `.` may have empty segments (`a..b`, `a.`). An empty last segment is looked up bare, with no suffix retry.

## Model

| member | source | states |
|---|---|---|
| KeyResolver.PluralSuffixes | lib/rules/no-undefined-translation-keys.js:15-23 | seven distinct suffixes, tried in source order, with `other` last |
| KeyResolver.Truthy | lib/rules/no-undefined-translation-keys.js:99-102 | a looked-up value is falsy exactly when it is `undefined`, `null`, `false`, `0` or `""`; every object or array is truthy, even an empty one |
| KeyResolver.Child | lib/rules/no-undefined-translation-keys.js:95 | `obj?.[k]` is defined exactly when `obj` is an object holding `k`, and is then that child |
| KeyResolver.Split | lib/rules/no-undefined-translation-keys.js:91 | `key.split(".")` returns at least one piece, no piece holds a `.`, and joining the pieces with `.` gives the key back |
| KeyResolver.SplitJoin | lib/rules/no-undefined-translation-keys.js:91 | splitting the `.`-join of dot-free segments returns exactly those segments |
| KeyResolver.JoinInjective | lib/rules/no-undefined-translation-keys.js:91 | two lists of dot-free segments with the same `.`-join are equal, so a key has one segmentation |
| KeyResolver.GetTranslationKey | lib/rules/no-undefined-translation-keys.js:89-109 | the shifting loop with the suffix loop returns `Resolve`: exact descent through all but the last segment, then the bare last segment, retried with the plural suffixes when falsy and non-empty |
| KeyResolver.ExactPathResolves | lib/rules/no-undefined-translation-keys.js:89-96 | when every segment matches a key and the value reached is truthy, the lookup returns that value |
| KeyResolver.FallbackFirstTruthy | lib/rules/no-undefined-translation-keys.js:100-105 | the suffix loop returns the first truthy suffixed value, in the order zero, singular, one, two, few, many, other |
| KeyResolver.FallbackNoneTruthy | lib/rules/no-undefined-translation-keys.js:100-105 | when no suffixed value is truthy, the suffix loop returns the `_other` lookup |
| KeyResolver.FallbackTruthyIff | lib/rules/no-undefined-translation-keys.js:100-105 | the suffix loop yields a truthy value if and only if some suffixed sibling is truthy |
| KeyResolver.PluralFallbackResolves | lib/rules/no-undefined-translation-keys.js:15-23 | a falsy non-empty last segment resolves to its first truthy suffixed sibling on the parent |
| KeyResolver.PluralExample | lib/rules/no-undefined-translation-keys.js:99-106 | `distance.milesAway` resolves through `milesAway_one` when `milesAway` itself is absent |
| KeyResolver.DescendUndefined | lib/rules/no-undefined-translation-keys.js:95 | descending from `undefined` stays `undefined` |
| KeyResolver.DescendAppend | lib/rules/no-undefined-translation-keys.js:92-96 | descending along `p + q` is descending along `p`, then along `q` |
| KeyResolver.FallbackUndefined | lib/rules/no-undefined-translation-keys.js:101 | the suffix loop on an `undefined` parent yields `undefined` |
| KeyResolver.MissingNamespaceIsUndefined | lib/rules/no-undefined-translation-keys.js:90 | a namespace absent from the table makes every key `undefined` |
| KeyResolver.MissingIntermediateIsUndefined | lib/rules/no-undefined-translation-keys.js:92-101 | a missing intermediate segment makes the key `undefined`, because suffixes are tried only at the last segment |
| KeyResolver.FalsyWithoutPluralsIsUndefined | lib/rules/no-undefined-translation-keys.js:99-106 | a falsy last value with no suffixed siblings resolves to `undefined`, even when the key is defined |
| KeyResolver.FalsyWithoutPluralsStep | lib/rules/no-undefined-translation-keys.js:99-106 | the last step on a falsy bare value with no suffixed siblings yields `undefined` |
| KeyResolver.EmptyTranslationIsUndefined | lib/rules/no-undefined-translation-keys.js:99-106 | a key defined as the empty string is looked up as `undefined` |
| KeyResolver.EmptyLastSegmentIsBare | lib/rules/no-undefined-translation-keys.js:99 | an empty last segment gets no suffix retry: the lookup is exact descent |
| ContextAnalyzer.FindProperty | lib/rules/no-undefined-translation-keys.js:137-139 | `properties.find` returns a property named `keyPrefix` exactly when one exists, and it is the first one in source order |
| ContextAnalyzer.VisitPlainDeclarator | lib/rules/no-undefined-translation-keys.js:131-157 | the plain-pass callback computes `PlainStep`: a direct binding to `useTranslation` sets both fields, then `await getTranslations`, then `getTranslations`, each sets the prefix |
| ContextAnalyzer.VisitPatternDeclarator | lib/rules/no-undefined-translation-keys.js:169-182 | the destructuring callback computes `PatternStep`: an object pattern binding the callee from `useTranslation` sets both fields |
| ContextAnalyzer.VisitBody | lib/rules/no-undefined-translation-keys.js:126-160 | the two nested `forEach` loops over one body compute the fold of the step over statements and declarators, in order |
| ContextAnalyzer.FindTranslationFunctionInfo | lib/rules/no-undefined-translation-keys.js:119-191 | the result is `Scan`: ancestors outermost first, in each the plain pass then the destructuring pass, with the last write winning |
| ContextAnalyzer.ScanUnbound | lib/rules/no-undefined-translation-keys.js:131-133 | ancestors that bind the callee name nowhere leave prefix and namespace unchanged |
| ContextAnalyzer.ScanAppend | lib/rules/no-undefined-translation-keys.js:124-188 | scanning `outer + inner` is scanning `inner` from the state `outer` left |
| ContextAnalyzer.StatementsPassAppend | lib/rules/no-undefined-translation-keys.js:126-160 | a pass over the statements `a + b` is a pass over `a`, then a pass over `b` from where it left off |
| ContextAnalyzer.ScanDeclaringScope | lib/rules/no-undefined-translation-keys.js:124-188 | a block holding a declaration among statements that bind nothing, followed by ancestors that bind nothing, applies that declarator's plain step, then its destructuring step, to what the outer ancestors left |
| ContextAnalyzer.UseTranslationSetsBoth | lib/rules/no-undefined-translation-keys.js:136-141 | `t = useTranslation(ns, { keyPrefix: p })`, plain or destructured as `{ t }` or `{ x: t }`, yields prefix `p` and namespace `ns`, also when the block holds other statements such as `return t(…)` and further ancestors follow, as long as none of them rebinds `t` |
| ContextAnalyzer.GetTranslationsSetsPrefixOnly | lib/rules/no-undefined-translation-keys.js:143-157 | `t = await getTranslations(x)` and `t = getTranslations(x)` set the prefix to `x` and keep the namespace as outer scopes left it, also when the block holds other statements and further ancestors follow, as long as none of them rebinds `t` |
| ContextAnalyzer.DestructuringPassRunsLast | lib/rules/no-undefined-translation-keys.js:163-187 | in one scope a destructured `useTranslation` overrides a later plain `getTranslations`, because the destructuring pass runs second |
| ContextAnalyzer.FieldsOverwrittenSeparately | lib/rules/no-undefined-translation-keys.js:140-157 | an inner `getTranslations(q)` replaces the prefix of an outer `useTranslation("a", …)` and keeps its namespace `a` |
| NoUndefinedTranslationKeys.DefaultNamespace | lib/rules/no-undefined-translation-keys.js:83 | an absent or empty `defaultNamespace` option means `"default"`; otherwise the option is used; `CheckCallExpression` takes the option and looks up with this result |
| NoUndefinedTranslationKeys.PrefixedKey | lib/rules/no-undefined-translation-keys.js:223-225 | the key ends with the literal; it is the literal itself exactly when the prefix is falsy, and otherwise starts with the prefix and a `.` |
| NoUndefinedTranslationKeys.Message | lib/rules/no-undefined-translation-keys.js:236 | the message quotes the key after `Translation key`, then the namespace after `in namespace`, and ends with the fixed closing text |
| NoUndefinedTranslationKeys.MessageIdentifiesReference | lib/rules/no-undefined-translation-keys.js:236 | when namespaces hold no `"`, two references with the same message are the same reference |
| NoUndefinedTranslationKeys.IndexOf | lib/rules/no-undefined-translation-keys.js:227 | `indexOf` is -1 exactly when the character is absent, and otherwise its first position |
| NoUndefinedTranslationKeys.Normalize | lib/rules/no-undefined-translation-keys.js:223-231 | a key with `:` is split at its first `:` into a colon-free namespace and the rest; without `:` the namespace is `inferred ?? default` |
| NoUndefinedTranslationKeys.FirstColonSplitUnique | lib/rules/no-undefined-translation-keys.js:226-231 | a string splits in at most one way into a colon-free part, `:` and the rest |
| NoUndefinedTranslationKeys.ExplicitNamespaceWins | lib/rules/no-undefined-translation-keys.js:226-231 | with no truthy prefix, `ns:key` is looked up as `key` in `ns` whatever namespace was inferred |
| NoUndefinedTranslationKeys.PrefixGluedToExplicitNamespace | lib/rules/no-undefined-translation-keys.js:223-231 | with a truthy colon-free prefix `p`, `ns:key` is looked up as `key` in namespace `p.ns`: the prefix is joined before the split at `:` |
| NoUndefinedTranslationKeys.PrefixJoinedWithDot | lib/rules/no-undefined-translation-keys.js:223-225 | a truthy prefix is joined to the literal with `.`, and the namespace is the inferred one or the default |
| NoUndefinedTranslationKeys.PlainLiteralUsesDefault | lib/rules/no-undefined-translation-keys.js:223-231 | with nothing inferred, a colon-free literal is looked up as it is in the default namespace |
| NoUndefinedTranslationKeys.CheckCallExpression | lib/rules/no-undefined-translation-keys.js:194-239 | a report is issued exactly for a `t`/`translate` call with a literal first argument whose reference resolves to `undefined`, and it names that key and namespace |
| NoUndefinedTranslationKeys.FoundKeyNotReported | tests/lib/rules/no-undefined-translation-keys.js:42-45 | `t('pizza')` is looked up as `pizza` in `default` and found |
| NoUndefinedTranslationKeys.MissingKeyLookedUpInDefault | tests/lib/rules/no-undefined-translation-keys.js:194-203 | `t('thisOneIsMissing')` is checked, as `thisOneIsMissing` in namespace `default` |
| NoUndefinedTranslationKeys.MissingKeyIsUndefined | tests/lib/rules/no-undefined-translation-keys.js:194-203 | `thisOneIsMissing` is `undefined` in a table without it, so the call is reported |
| NoUndefinedTranslationKeys.AccessorKeyLookedUpInDefault | tests/lib/rules/no-undefined-translation-keys.js:218-231 | under `const t = await getTranslations("common")`, `t(k)` is looked up as `common.k` in namespace `default`, whatever else the block holds and whatever encloses it, as long as nothing else binds `t` |
| NoUndefinedTranslationKeys.PageKeyLookedUpInDefault | tests/lib/rules/no-undefined-translation-keys.js:218-231 | on the test's own ancestors (program, function declaration, its block with the declaration and the `return`, the return statement), `t(k)` is looked up as `common.k` in `default` |
| NoUndefinedTranslationKeys.AccessorKeyIsUndefined | tests/lib/rules/no-undefined-translation-keys.js:218-231 | `common.missingKey` is `undefined` when `common` lacks `missingKey`, so the call is reported |
| TranslationKeyStringLiteral.NormalizedSource | lib/rules/translation-key-string-literal.js:44-46 | the normalised source neither starts nor ends with whitespace |
| TranslationKeyStringLiteral.IsTHasCall | lib/rules/translation-key-string-literal.js:51-58 | a `t.has` call is a call whose callee has no name, so it is never itself a call of `t` |
| TranslationKeyStringLiteral.NormalizedShape | lib/rules/translation-key-string-literal.js:44-46 | normalised text never starts or ends with whitespace, and its only whitespace is single spaces, never two in a row |
| TranslationKeyStringLiteral.NormalizedContent | lib/rules/translation-key-string-literal.js:44-46 | normalisation keeps every non-whitespace character, in order |
| TranslationKeyStringLiteral.SameNormalFormSameContent | lib/rules/translation-key-string-literal.js:77-80 | two texts with equal normalised forms have the same non-whitespace characters |
| TranslationKeyStringLiteral.NormalizedIdempotent | lib/rules/translation-key-string-literal.js:44-46 | normalising normalised text changes nothing |
| TranslationKeyStringLiteral.CollapseContent | lib/rules/translation-key-string-literal.js:45 | collapsing whitespace runs keeps every non-whitespace character, in order |
| TranslationKeyStringLiteral.CollapseAppend | lib/rules/translation-key-string-literal.js:45 | collapsing distributes over a cut that follows a non-whitespace character |
| TranslationKeyStringLiteral.WhitespaceRunsAreEquivalent | tests/lib/rules/translation-key-string-literal.js:47-79 | any whitespace run between two tokens, line breaks included, normalises as a single space does |
| TranslationKeyStringLiteral.IsGuardedByTHas | lib/rules/translation-key-string-literal.js:64-89 | the downward search returns true if and only if some ancestor is a conditional testing `t.has(a)` with `a` and the call's first argument normalising alike; on true, no ancestor inside that one matches |
| TranslationKeyStringLiteral.CheckCallExpression | lib/rules/translation-key-string-literal.js:95-119 | the report "Translation keys must be string literals" is issued exactly for a `t` call with a missing or non-literal first argument, not guarded when the option allows guards |
| TranslationKeyStringLiteral.LiteralKeyNeverFlagged | lib/rules/translation-key-string-literal.js:97-98 | a literal first argument is never reported |
| TranslationKeyStringLiteral.WithoutOptionGuardsIgnored | lib/rules/translation-key-string-literal.js:34-35 | without the option, a `t` call is reported exactly when its key is not a literal, guarded or not |
| TranslationKeyStringLiteral.MissingKeyAlwaysFlagged | lib/rules/translation-key-string-literal.js:72-75 | `t()` is reported even with the option on, since the guard needs a first argument |
| TranslationKeyStringLiteral.THasCallNotFlagged | lib/rules/translation-key-string-literal.js:51-58 | `t.has(k)` is a `t.has` call, and it is never itself reported, because its callee has no name |
| TranslationKeyStringLiteral.GuardedCallAccepted | lib/rules/translation-key-string-literal.js:66-85 | with the option on, `t.has(k1) ? … : …` around `t(k2)` accepts the call if and only if `k1` and `k2` normalise alike, whichever branch holds the call |
| TranslationKeyStringLiteral.MismatchedGuardFlagged | lib/rules/translation-key-string-literal.js:80-82 | a guard whose key has different non-whitespace text does not protect the call |
| TranslationKeyStringLiteral.DifferentIdentifiersFlagged | tests/lib/rules/translation-key-string-literal.js:121-125 | `t.has(keyA) ? t(keyB) : fallback` is reported with the option on |

## Left out

- Loading the namespace mapping file and the translation files (lib/rules/no-undefined-translation-keys.js:59-81, lib/requireNoCache.js): this is file I/O. The namespace-to-tree table and the default namespace are parameters instead.
- ESLint plumbing: rule metadata and schema, the `getAncestors` compatibility shims, and `context.report`. A report is a returned optional message, and the ancestor chain is a sequence parameter.
- `sourceCode.getText`: every node carries its source text as a field.
- JavaScript property-access quirks in `obj?.[k]` and in the namespace lookup `translationKeysFromFiles[namespace]` (lib/rules/no-undefined-translation-keys.js:90): indexing into a string leaf (`length`, character positions), an array's own `length` property (`items.length` on a non-empty array is truthy in JavaScript but `undefined` here), and prototype keys such as `constructor` (`t('constructor:name')` finds `Object.name` in JavaScript, while the model finds no namespace and reports it). Leaves have no children, and arrays have only their index keys.
- Non-string literals as the first argument of `t`: the first rule calls `key.indexOf`, which assumes a string, so literals carry a string only.
- Numbers in translation files are mathematical reals. Only their truthiness matters, and `NaN` is not represented.
- `useTranslations(...)`: the code does not recognise it, so neither does the model. See the note above.
- The diagnostic text of the first rule is `Message`. No lemma compares it character by character with a concrete message from the tests; its shape is stated by `Message` and `MessageIdentifiesReference`.
