# SEO tag value store — a verified Dafny model

This project models the tag value store at the heart of `SEOManager`
(`src/SEOManager.php`), the class that collects what a Laravel page puts in
its HTML head: title, description, canonical URL, Open Graph and Twitter
values, raw head tags and extension views.

The store is a bundle of finite maps:

- explicit **values**, **defaults** and **modifiers**, keyed by dotted keys
  such as `title` or `twitter.title`;
- **extension** flags, seeded with `twitter => false`;
- a **meta** store (extension views, Flipp template ids);
- the recorded head **tags**.

The model is one immutable `State` record. Every operation is a pure
function from state to state, except `getKeys` and `all`, which are methods
with loops because they build lists.

| file | module | what it holds |
|---|---|---|
| `options.dfy` | `Optional` | `Option`, standing for PHP's nullable values |
| `keys.dfy` | `DottedKeys` | `Str::contains`/`before`/`after` on `'.'`, and the fallback chain of a key |
| `store.dfy` | `TagStore` | the state; `get`, `raw`, `modify`, `set` (single and batch), `extension`, `extensions`, `favicon`, `meta` (single and batch), Flipp configure mode, `rawTag`, `tag`, `hasRawTag`, `hasTag`, `tags` |
| `snapshot.dfy` | `Snapshot` | `getKeys` and `all` |
| `accessor.dfy` | `Accessor` | `__call`, given the camelCase-to-dotted conversion as a parameter |

How PHP is rendered:

- `null` is `None`. PHP's `isset` and `??` treat a stored `null` as absent. So
  does the model: `HasValue` and `HasDefault` hold only for a non-null entry.
- A closure value (`value(...)`) is modelled as the string it evaluates to.
  A modifier is a total `string -> string` function.
- `extension` records a view only when the view is truthy. In PHP a string is
  falsy when it is `null`, `""` or `"0"` (`Truthy`).
- `SEOManager.php` declares `strict_types=1`. An accessor call that passes a
  string where `extension` expects a bool, or a bool where `set` expects a
  string, is therefore a `TypeError`. It is modelled as one. The store keeps
  whatever the call registered before the failing `set`.
- Lookup order: `get(k)` tries the explicit value, then the default, then
  `get` of the part after the first dot, then null. `Chain(k)` lists the keys
  this visits: one more key than `k` has dots, each a suffix of `k`.
  `get(k)` is null exactly when no key of the chain is set (the
  lemma `GetNullIffUnset`).

Two facts of the code shape the model:

- A positional accessor call returns the store itself (`$this`), not the
  value, whenever a non-null positional value, `default`, `modifier` or
  `modify` was given (`src/SEOManager.php:283-285`).
  `Accessor.Call` and `Accessor.WriteThenRead` state this.
- `rawTag` stores `$tag ?? $key`, which is never null
  (`src/SEOManager.php:221-223`). So the tags map holds strings, and
  `hasRawTag` is membership in it.

## Model

| member | source | states |
|---|---|---|
| `DottedKeys.After` | src/SEOManager.php:120 | for a dotted key, head + "." + tail rebuilds the key, and the tail is a strictly shorter suffix; a dot-free key is returned whole |
| `DottedKeys.Before` | src/SEOManager.php:107-108 | the extension name of a key is dot-free and is a prefix of the key |
| `DottedKeys.SplitJoin` | src/SEOManager.php:107-108 | splitting `p + "." + q` at the first dot gives back exactly `p` and `q` when `p` has no dot |
| `DottedKeys.Chain` | src/SEOManager.php:115-121 | the keys `get` consults start at the key itself, and every later one is strictly shorter, so the fallback recursion terminates |
| `DottedKeys.ChainLength` | src/SEOManager.php:115-121 | the fallback visits one more key than the key has dots |
| `DottedKeys.ChainSuffixes` | src/SEOManager.php:115-121 | every key the fallback visits is a suffix of the key |
| `DottedKeys.ChainLastDotFree` | src/SEOManager.php:115-121 | only the last key the fallback visits is dot-free, which is where `get` stops with null |
| `TagStore.Init` | src/SEOManager.php:26-44 | a fresh store has no value, default, modifier, meta entry or tag; its only extension is `twitter`, known and switched off |
| `TagStore.Modify` | src/SEOManager.php:80-85 | `modify` hands back the explicit value through `k`'s modifier when one is registered and the bare value otherwise; it is only reached when `k` has a non-null value |
| `TagStore.Get` | src/SEOManager.php:115-122 | `get` is null exactly when walking `k`'s fallback chain front to back meets no key with a non-null value or default |
| `TagStore.ReachesSetIffSome` | src/SEOManager.php:115-121 | walking a key sequence reaches a set key exactly when some key of it has a non-null value or default |
| `TagStore.GetNullIffUnset` | src/SEOManager.php:115-121 | `get` never fails and is null exactly when no key of the fallback chain has a non-null value or default |
| `TagStore.GetFallsBack` | src/SEOManager.php:115-121 | with no non-null value or default, `get(k)` is `get` of the shorter tail for a dotted key and null otherwise |
| `TagStore.GetExplicitOrDefault` | src/SEOManager.php:80-85 | an explicit value comes back through `k`'s modifier when one is registered and as is otherwise; a default comes back untouched |
| `TagStore.ModifiersIgnoreDefaults` | src/SEOManager.php:115-121 | when no key of the chain has an explicit value, replacing all modifiers does not change `get` |
| `TagStore.GetFrame` | src/SEOManager.php:115-121 | `get(k)` depends only on what the keys of `k`'s chain resolve to locally |
| `TagStore.Raw` | src/SEOManager.php:125-131 | an explicit value comes back unmodified, even when a modifier is registered; `raw` is null exactly when `get` is |
| `TagStore.RawIsGetWithoutOwnModifier` | src/SEOManager.php:125-131 | `raw(k)` equals `get(k)` in a store with only `k`'s own modifier removed, so a fallback key's modifier still applies |
| `TagStore.Assign` | src/SEOManager.php:105-109 | `set` stores the value (null included), switches on exactly the head of a dotted key, and changes no default, modifier, meta entry or tag |
| `TagStore.Set` | src/SEOManager.php:105-111 | `set` returns `get(k)` in the new state: the value through `k`'s modifier, or, for null, what `k` resolves to with no explicit value |
| `TagStore.AssignNullClears` | src/SEOManager.php:105-121 | writing null reads exactly like removing the explicit value, because `isset` treats a stored null as absent |
| `TagStore.SetLeavesUnrelatedKeys` | src/SEOManager.php:105-121 | writing `k` leaves `get(j)` unchanged for every `j` whose fallback chain does not pass through `k` |
| `TagStore.SetEnablesExtension` | src/SEOManager.php:107-109 | after writing a dotted key, its head is listed by `extensions()`, whatever its flag was before |
| `TagStore.SetAllValues` | src/SEOManager.php:94-97 | batch `set` leaves the last write of each key |
| `TagStore.SetAllKeeps` | src/SEOManager.php:94-97 | batch `set` adds exactly the batch keys and keeps every other value |
| `TagStore.SetAllExtensions` | src/SEOManager.php:94-97 | batch `set` switches on the heads of its dotted keys and keeps every other flag |
| `TagStore.SetAll` | src/SEOManager.php:94-97 | the `foreach` of batch `set` changes no default, modifier, meta entry or tag |
| `TagStore.BatchSet` | src/SEOManager.php:94-102 | batch `set` returns one entry per input key in input order, each the key's `get` after all writes; without a modifier, that is the written value |
| `TagStore.Extension` | src/SEOManager.php:135-144 | `extension` sets the flag and records the view under `extensions.<name>.view` only when the view is truthy |
| `TagStore.ViewOf` | src/SEOManager.php:153 | an extension's view is the one recorded at `extensions.<name>.view`, or `seo::extensions.<name>` when none was recorded |
| `TagStore.Extensions` | src/SEOManager.php:147-156 | `extensions()` lists exactly the enabled extensions, each with its recorded view or `seo::extensions.<name>` |
| `TagStore.ExtensionThenExtensions` | src/SEOManager.php:135-156 | after `extension(n, e, view)`, `n` is listed iff `e`, with the new truthy view, else the earlier view or the conventional one; every other extension is listed as before |
| `TagStore.ViewKeyInjective` | src/SEOManager.php:140 | different extensions record their views under different meta paths |
| `TagStore.Favicon` | src/SEOManager.php:185-190 | `favicon()` sets exactly the `favicon` flag to true, so it is listed by `extensions()`; every other flag, known or not, enabled or not, and every other store is unchanged |
| `TagStore.MetaGet` | src/SEOManager.php:248-249 | a meta read is null exactly when nothing was written at the path, and otherwise the entry there |
| `TagStore.Meta` | src/SEOManager.php:248-254 | a null value reads and leaves the store alone; a non-null value is read back at its path and no other path changes |
| `TagStore.MetaAllWrites` | src/SEOManager.php:239-246 | batch `meta` keeps the last non-null entry of each path and leaves paths with only null entries alone |
| `TagStore.MetaAll` | src/SEOManager.php:239-246 | batch `meta` changes no value, default, modifier, extension flag or tag |
| `TagStore.FlippConfigure` | src/SEOManager.php:161-165 | configure mode records the template id at `flipp.templates.<alias>` and changes no other meta path; values, defaults, modifiers, extension flags, extension views and tags are unchanged |
| `TagStore.FlippDefaultPayload` | src/SEOManager.php:167-172 | the default Flipp payload holds exactly the title and description, each `raw`: explicit values unmodified, and otherwise what `get` gives with that key's own modifier removed |
| `TagStore.HasRawTag` | src/SEOManager.php:207-210 | `hasRawTag(k)` holds exactly when `tags()` has an entry under `k`, since no tag is ever null |
| `TagStore.HasTag` | src/SEOManager.php:213-216 | `hasTag(p)` holds exactly when `tags()` has an entry under `meta.<p>` |
| `TagStore.Tags` | src/SEOManager.php:201-204 | `tags()` lists every recorded tag under the key it was recorded with |
| `TagStore.RawTag` | src/SEOManager.php:219-226 | after `rawTag(k, t)`, `hasRawTag(k)` holds and the tag is `t`, or `k` when `t` is null; other tags are unchanged |
| `TagStore.Tag` | src/SEOManager.php:229-234 | after `tag(p, c)`, `hasTag(p)` holds and `meta.p` holds the `<meta property=… content=… />` markup; every other tag, `meta.` or not, keeps its presence and contents, and no other store changes |
| `TagStore.TagKeyInjective` | src/SEOManager.php:215 | different properties are recorded under different tag keys |
| `TagStore.MetaTagDecodes` | src/SEOManager.php:229-234 | for properties without a double quote, the rendered `<meta>` markup determines both the property and the content |
| `TagStore.TagLifecycle` | src/SEOManager.php:201-216 | a fresh store has no tag; after `tag(p, c)` it has exactly the rendered one |
| `Snapshot.Enumerate` | src/SEOManager.php:61-62 | `array_keys` lists each key of a store map exactly once |
| `Snapshot.Unique` | src/SEOManager.php:63 | `unique()`, comparing keys as strings, keeps the same members with no duplicates |
| `Snapshot.KeepActive` | src/SEOManager.php:64-75 | the filter keeps exactly the active keys: dot-free keys, and dotted keys whose head is a known extension whose flag is on |
| `Snapshot.GetKeys` | src/SEOManager.php:55-77 | `getKeys` lists, without string duplicates, exactly the well-known, defaulted and valued keys that are active |
| `Snapshot.All` | src/SEOManager.php:47-52 | `all` maps exactly the active keys, each to its `get` |
| `Snapshot.PlainKeysDotFree` | src/SEOManager.php:58 | the dot-free well-known keys have no dot |
| `Snapshot.TwitterKeysHeaded` | src/SEOManager.php:59 | every well-known dotted key is headed by `twitter` |
| `Snapshot.TwitterKeyInheritsBase` | src/SEOManager.php:115-121 | a `twitter.<field>` key with no value or default of its own reads as the plain `<field>` key, so `twitter.title` falls back to the title |
| `Snapshot.TwitterKeysFollowFlag` | src/SEOManager.php:57-75 | the well-known Twitter keys are in the snapshot iff `twitter` is enabled: never in a fresh store, always after any `twitter.*` write |
| `Snapshot.PlainKeysAlwaysListed` | src/SEOManager.php:57-74 | the dot-free well-known keys are always in the snapshot |
| `Snapshot.WrittenKeyIsListed` | src/SEOManager.php:105-109 | a key just written is always in the snapshot, a dotted one because writing it enabled its extension |
| `Snapshot.DisabledExtensionHidesKeys` | src/SEOManager.php:64-71 | switching an extension off drops every key it heads from the snapshot |
| `Accessor.Register` | src/SEOManager.php:266-277 | a non-null `default` registers the default; a non-null `modify` wins over `modifier`; nothing else changes |
| `Accessor.Call` | src/SEOManager.php:258-288 | an extension name sets only its flag (a missing argument means true) and changes no value, default, modifier, meta entry or tag; any other name registers the default and modifier (`modify` winning), then `set`s a positional value, which also switches on a dotted key's extension, and returns the store when a non-null positional value, `default`, `modifier` or `modify` was given; otherwise (no argument, only null ones, or only unrelated named ones) it leaves the store alone and returns `get` of the key; a mistyped positional argument raises a type error, after a key accessor's default and modifier are already registered |
| `Accessor.DefaultThenRead` | src/SEOManager.php:266-287 | registering a default and then reading yields the default while the key has no explicit value |
| `Accessor.WriteThenRead` | src/SEOManager.php:279-287 | a positional write returns the store; a later read yields the value through the key's modifier |
| `Accessor.ModifyOverridesModifier` | src/SEOManager.php:270-277 | given both, the `modify` transformer is the one registered and applied |
| `Accessor.ExtensionAccessorEnables` | src/SEOManager.php:260-262 | naming an extension with no argument switches it on |

## Left out

- The invoke mode of `flipp` (`src/SEOManager.php:167-181`) is left out. It
  needs base64, JSON encoding, HMAC-SHA256 and the `config()` secret, all
  foreign calls. Only its default payload (`FlippDefaultPayload`) and the
  configure mode are modelled. So the unvalidated, missing template id in
  the signature is not modelled either.
- `withUrl` is left out, because it reads the HTTP `request()` collaborator.
- `Str::snake` is a Laravel library function whose code is not part of this
  model. `Accessor.Call` takes it as the parameter `snake`. `__get` and
  `__set` are `get` and `set` on `snake($key)` and add nothing beyond
  `TagStore.Get` and `TagStore.Set`.
- Meta is a flat map from full dotted paths to strings. `data_get` and
  `data_set` work on nested arrays: a write to a parent path clobbers its
  subtree, and a read of a parent path returns an array. Neither is modelled.
  Only leaf writes and reads are modelled.
- Closures are taken as already evaluated: side effects and repeated
  evaluation of `value(...)` are not modelled.
- A closure stored as a value or default that evaluates to null is not
  modelled. `isset` and `??` test the closure object, not its result
  (`src/SEOManager.php:117-119`). So in PHP `get` returns null at that key
  without trying the default or the dot fallback. `TagStore.GetNullIffUnset`
  holds only for stores without such closures.
- Modifiers are total `string -> string` functions. A PHP modifier that
  returns `null` is not modelled.
- `Snapshot.Unique`: de-duplicates by string equality. Laravel's `unique()`
  (`src/SEOManager.php:63`) compares loosely and merges keys that PHP 8
  compares as equal numbers, keeping the first, such as `"1.5"` and `"1.50"`
  or `"1"` and `"01"`. The model keeps both. Numeric-looking keys are outside
  what the model promises.
- `Snapshot.GetKeys`: states membership and absence of duplicates, not the
  order of the Laravel collection (fixed keys, then defaults, then values,
  first occurrence kept), because map key order is not part of the state.
  Its membership claim holds for keys that `unique()` does not merge, as in
  the `Snapshot.Unique` line above.
- `Snapshot.All`: states the keys and values of the resulting array, not its
  order. Like `Snapshot.GetKeys`, it keeps numerically equal keys such as
  `"1.5"` and `"1.50"` that PHP's `getKeys` merges into one.
- `TagStore.Extensions`: states the keys and views, not the order of the
  resulting array.
- `TagStore.BatchSet`: takes a sequence of pairs, which may repeat a key. A
  PHP array cannot. It also does not model the `TypeError` path: PHP stores
  a decimal-integer string key such as `"404"` as an int, and passing that
  int back to `set(string|array $key, …)` (`src/SEOManager.php:95-96`)
  throws under strict types, while the model writes the key. On an input
  without repeats whose keys PHP keeps as strings, it returns what PHP
  returns.
- `TagStore.MetaAll`: likewise does not model the `TypeError` that batch
  `meta` raises for a decimal-integer key (`src/SEOManager.php:241-242`).
- `src/SEOServiceProvider.php` is left out: container registration, view
  loading and publishing, the console command and the Blade directive. It
  is framework glue over `get` and `set`.
