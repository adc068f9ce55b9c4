# lib-amo request parameters, in Dafny

This project models `libAmo\Request\Params`. This is the container that the
amoCRM API client fills before it sends a request. It holds five independent
parameter tables and one proxy value:

- `authParams`: authorization fields such as login, domain, API key, access token and locale;
- `getParams`: query-string parameters;
- `postParams`, `patchParams` and `deleteParams`: body parameters for each verb;
- `proxy`: the proxy server, `null` until one is set.

Every adder and clearer changes one field in place and returns the object for
chaining. The getters and `has*` tests only read.

Structure:

- `php_array.dfy`, module `PhpArray`: the part of PHP's ordered array the class relies on.
  - A table is a sequence of (key, value) entries in insertion order. Keys are `IntKey`/`StrKey`. Values are a closed `Value` datatype (`Null`, `Bool`, `Int`, `Str`, `Arr`).
  - `Find` is the raw read `$t[$k]`.
  - `Lookup` is the getters' `isset($t[$k]) ? $t[$k] : null`.
  - `Assign` is `$t[$k] = $v`: overwrite in place, or append.
  - `Merge` is `array_merge`: a left fold in which a string key is assigned and an integer key is renumbered to the next free index.
  - `Fresh` and `Renumber` describe the key order `array_merge` produces: the old array's keys, then the batch's keys that are new to it, with every integer key renumbered 0, 1, 2, ...
  - Lemmas state read-your-write, key order, distinctness, and the string-key and integer-key behaviour of `array_merge`.
- `params.dfy`, module `Request`: the class `Params` with the six fields.
  - Every mutator is a `modifies this` method. It states the new value of its table, says that every other field is unchanged, and returns `self == this`.
  - `Valid()` says that every table has distinct keys, as every PHP array does.
  - `Added` gives the table that `addGet`/`addPost`/`addPatch`/`addDelete` leave behind. The `Added*` lemmas say what the getters then read.
- `scenarios.dfy`, module `Scenarios`: client call sequences and what the contracts let a caller conclude about them. These cover a fresh object, a stored null, batch merge and the order it leaves, table independence, the auth helpers, clearing twice and the proxy type test.

Notable behaviours of the code, which the model keeps:

- Not every table has a full set of operations. There is no `hasAuth`, `clearAuth` or `clearDelete`, and `addAuth` has no batch form.
- A batch add is `array_merge`, not a plain overwrite. Integer keys are renumbered and appended, so they never overwrite.
- `hasX()` is not always true after `addX`. Merging an empty batch into an empty table leaves it empty (`Request.Added`).
- `addProxy` stores any value, not only a non-empty string. `hasProxy` is the type test `is_string`.
- A key stored with `null` reads as `null` but still counts towards `hasX`. So an explicit null cannot be told apart from a missing key through `getX(name)`.

## Model

| member | source | states |
|---|---|---|
| PhpArray.Find | Request/Params.php:104 | the raw read finds a value exactly when the key is present, and that value is stored under the key |
| PhpArray.IsSet | Request/Params.php:104 | `isset` holds only for a present key; in an array with distinct keys it holds exactly when an entry under the key has a non-null value |
| PhpArray.FindDistinct | Request/Params.php:104 | in an array with distinct keys, the raw read returns the value of the entry that holds the key |
| PhpArray.FindAppend | Request/Params.php:119 | a read in a table extended at the end finds the old entry first, and the appended entry only for a new key |
| PhpArray.Lookup | Request/Params.php:101-107 | the `isset` read returns the stored value when the key is present; it is non-null exactly when the key is set with a non-null value; a missing key reads null |
| PhpArray.LookupAt | Request/Params.php:135 | in an array with distinct keys, the getters return the stored value of every entry, a stored null included |
| PhpArray.Assign | Request/Params.php:121 | after an assignment the table is never empty |
| PhpArray.FindAssign | Request/Params.php:121 | read-your-write: after `$t[$k] = $v` the key holds `$v` and every other key holds what it held before |
| PhpArray.AssignKeys | Request/Params.php:61 | an assignment keeps the key order when it overwrites, and appends the key at the end otherwise |
| PhpArray.AssignDistinct | Request/Params.php:172 | an assignment keeps the keys of an array distinct |
| PhpArray.LookupAssign | Request/Params.php:220 | after an assignment the getters read the new value under that key and the old reading under every other key |
| PhpArray.StoredNullReadsAsAbsent | Request/Params.php:147 | storing null under a key makes the table non-empty and the key present, yet the getters read null for it |
| PhpArray.IntEntriesAssignStr | Request/Params.php:119 | assigning under a string key leaves the integer-keyed entries unchanged |
| PhpArray.FindDense | Request/Params.php:119 | in integer entries numbered n, n+1, ..., key m holds entry m-n, and keys outside that range are absent |
| PhpArray.Put | Request/Params.php:119 | one step of `array_merge`: a string key then holds the copied value; an integer key is appended under the next index, a string key keeps its place when present and is appended otherwise |
| PhpArray.Fold | Request/Params.php:119 | copying entries into an array keeps the array's existing keys in their places at the front |
| PhpArray.Merge | Request/Params.php:119 | `array_merge` returns distinct keys whose integer keys are 0, 1, 2, ... in order |
| PhpArray.PutInv | Request/Params.php:119 | one merge step keeps keys distinct and integer keys dense, and appends the entry's value to the integer-keyed values when its key is an integer |
| PhpArray.FoldInv | Request/Params.php:119 | copying a table keeps keys distinct and integer keys dense, and appends the table's integer-keyed values in order |
| PhpArray.FoldStrKey | Request/Params.php:119 | copying a table with distinct keys gives each of its string keys the copied value and leaves other string keys alone |
| PhpArray.MergeStrKey | Request/Params.php:187 | `array_merge`, string keys: the batch's value wins, and keys missing from the batch keep the old value |
| PhpArray.MergeIntKey | Request/Params.php:204 | `array_merge`, integer keys: the old integer-keyed values then the batch's are renumbered 0..n-1 in order, none is overwritten, and no other integer key exists |
| PhpArray.FoldKeys | Request/Params.php:119 | copying a table keeps the existing keys in place and appends the source's new keys in order, integer keys renumbered from the next free index |
| PhpArray.FoldEmpty | Request/Params.php:119 | copying a table into an empty array renumbers its integer keys from 0 and keeps its order |
| PhpArray.MergeKeys | Request/Params.php:119 | `array_merge`, order: the old array's keys in their order, then the batch's keys new to it in the batch's order, integer keys renumbered 0, 1, 2, ...; a shared string key keeps the old position |
| PhpArray.RenumberAppend | Request/Params.php:119 | renumbering a concatenation renumbers the second part from where the first part's integer keys end |
| PhpArray.MergeEmpty | Request/Params.php:119 | `array_merge` returns an empty array exactly when both inputs are empty |
| PhpArray.LookupMergeStrKey | Request/Params.php:169-170 | after a merge the getters read a string key from the batch when the batch has it, otherwise from the old table |
| Request.KeyOrBatch | Request/Params.php:118-122 | an array `$name` is accepted only with a null value and distinct keys; a null or bool `$name` is refused; any integer or string `$name` is accepted |
| Request.KeyOf | Request/Params.php:121 | an integer or string `$name` denotes the integer or string key with the same content |
| Request.Added | Request/Params.php:116-124 | the table left by an adder keeps keys distinct, and is empty only after merging an empty batch into an empty table (so `hasX` is true after any other add) |
| Request.AddedKeyLookup | Request/Params.php:116-138 | single-key add: the key becomes present and reads as the given value; every other key reads as before |
| Request.AddedBatchStrKey | Request/Params.php:167-175 | batch add, string keys: a key of the batch reads as the batch's value, and any other key reads as before |
| Request.AddedBatchIntKey | Request/Params.php:184-192 | batch add, integer keys: the old values and then the batch's are read under 0..n-1, and any other integer key reads null |
| Request.Params.constructor | Request/Params.php:12-37 | a new object has all five tables empty and `proxy == null` |
| Request.Params.AddProxy | Request/Params.php:46-50 | sets `proxy` to the given value, leaves the five tables unchanged, returns the object |
| Request.Params.AddAuth | Request/Params.php:59-63 | assigns the key in `authParams`, leaves every other field unchanged, returns the object |
| Request.Params.AddLogin | Request/Params.php:65-69 | assigns `login` in `authParams`, the same as `addAuth('login', v)`; nothing else changes |
| Request.Params.AddDomain | Request/Params.php:71-75 | assigns `domain` in `authParams`, the same as `addAuth('domain', v)`; nothing else changes |
| Request.Params.AddApiKey | Request/Params.php:77-81 | assigns `apiKey` in `authParams`, the same as `addAuth('apiKey', v)`; nothing else changes |
| Request.Params.AddAccessToken | Request/Params.php:83-87 | assigns `access_token` in `authParams`, the same as `addAuth('access_token', v)`; nothing else changes |
| Request.Params.AddLocale | Request/Params.php:89-93 | assigns `locale` in `authParams`, the same as `addAuth('locale', v)`; nothing else changes |
| Request.Params.GetAuth | Request/Params.php:101-107 | with a key, returns the `isset` read of `authParams`; without one, returns the whole table |
| Request.Params.AddGet | Request/Params.php:116-124 | replaces `getParams` by `array_merge(old, batch)` for an array `$name` with null value, otherwise assigns the key; nothing else changes; keys stay distinct |
| Request.Params.GetGet | Request/Params.php:132-138 | with a key, returns the `isset` read of `getParams`; without one, returns the whole table |
| Request.Params.HasGet | Request/Params.php:145-148 | true exactly when `getParams` has an entry, null-valued entries included |
| Request.Params.ClearGet | Request/Params.php:155-159 | `getParams` becomes empty whatever it held, so a second clear changes nothing; every other field is unchanged |
| Request.Params.AddPost | Request/Params.php:167-175 | as `AddGet`, on `postParams` |
| Request.Params.AddPatch | Request/Params.php:184-192 | as `AddGet`, on `patchParams` |
| Request.Params.AddDelete | Request/Params.php:201-209 | as `AddGet`, on `deleteParams` |
| Request.Params.GetPost | Request/Params.php:217-223 | with a key, returns the `isset` read of `postParams`; without one, returns the whole table |
| Request.Params.GetPatch | Request/Params.php:231-237 | with a key, returns the `isset` read of `patchParams`; without one, returns the whole table |
| Request.Params.GetDelete | Request/Params.php:245-251 | with a key, returns the `isset` read of `deleteParams`; without one, returns the whole table |
| Request.Params.HasPost | Request/Params.php:258-261 | true exactly when `postParams` has an entry |
| Request.Params.HasPatch | Request/Params.php:268-271 | true exactly when `patchParams` has an entry |
| Request.Params.HasDelete | Request/Params.php:278-281 | true exactly when `deleteParams` has an entry |
| Request.Params.ClearPost | Request/Params.php:288-292 | `postParams` becomes empty; every other field is unchanged |
| Request.Params.ClearPatch | Request/Params.php:299-303 | `patchParams` becomes empty; every other field is unchanged |
| Request.Params.GetProxy | Request/Params.php:310-313 | returns exactly the stored proxy |
| Request.Params.HasProxy | Request/Params.php:320-323 | true exactly when the stored proxy is a string |
| Scenarios.FreshContainer | Request/Params.php:12-37 | on a new object every `has` test is false, including `hasProxy`, and `getAuth()` is the empty array |
| Scenarios.StoredNullIsCounted | Request/Params.php:116-148 | after `addGet('x')`, `hasGet()` is true and `getGet('x')` is null, the same as for a missing key |
| Scenarios.BatchMerge | Request/Params.php:167-175 | `addPost('a', 1)` then a batch `['a' => 9, 5 => 'z']`: `'a'` reads 9, `'z'` reads under key 0, and key 5 reads null |
| Scenarios.BatchMergeOrder | Request/Params.php:167-223 | `addPost('a', 1)`, `addPost(3, 2)`, then the batch `[9 => 3, 'a' => 4, 'b' => 5]`: `getPost()` is `['a' => 4, 0 => 2, 1 => 3, 'b' => 5]` |
| Scenarios.MergeOrderExample | Request/Params.php:170 | `array_merge(['a' => 1, 3 => 2], [9 => 3, 'a' => 4, 'b' => 5])` is `['a' => 4, 0 => 2, 1 => 3, 'b' => 5]` |
| Scenarios.TablesAreIndependent | Request/Params.php:116-124 | a GET parameter is neither visible as a POST parameter nor counted by `hasPost` |
| Scenarios.AuthHelpers | Request/Params.php:65-107 | `addLogin`/`addApiKey` values are read back under `login`/`apiKey`, a later `addAuth('apiKey', ...)` overwrites the helper's value, and an unset key reads null |
| Scenarios.ClearTwice | Request/Params.php:155-159 | clearing GET twice leaves it empty and POST untouched |
| Scenarios.ProxyIsATypeTest | Request/Params.php:310-323 | a string proxy is reported and returned; setting null or an integer makes `hasProxy` false again |

## Left out

- `ParamsInterface`, which the class implements, is not part of this model. Only the concrete class is modelled.
- How the proxy is used (cURL options when the request is sent) belongs to another component. Only the stored value is modelled.
- PHP key normalisation is not modelled. A numeric string such as `"5"` becomes an integer key in PHP, and `null`, bool and float keys are converted. A model `Str("5")` stays a string key. The adders therefore require `$name` to be an integer, a string, or (for the batch forms) an array with a null value (`Request.KeyOrBatch`).
- An array `$name` with a non-null value is excluded by that same requirement. From PHP 8 on, that write is a fatal "illegal offset type" error (a `TypeError`); PHP 5 and 7 only warn, skip the write and still return the object.
- `addAuth` takes a `Key`. An array `$name` there is the same illegal offset as above.
- The getters take `Option<Key>`. `None` stands for the omitted or `null` `$name`. Other argument types (bool, float, array) are not modelled.
- Returning a whole table returns the value `Arr(table)`. PHP reference and copy-on-write behaviour is not modelled.
- Float values are not in the `Value` datatype. PHP integers are unbounded here: 64-bit limits on integer keys and values are not modelled.
- In `array_merge`, the next integer key is taken as the number of integer keys already in the result. PHP uses the array's next free element. The two agree because the result's integer keys are always 0..n-1 (`PhpArray.Merge`).
- Nested arrays inside values are treated as opaque payloads. Only the tables themselves, and a batch passed to an adder, are required to have distinct keys.
- Concurrency: none in the source, none modelled.
