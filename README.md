# Symfony `UriSigner`, modelled in Dafny

The project models the URI signer of the Symfony HttpKernel component
(`src/Symfony/Component/HttpKernel/UriSigner.php`). The signer is set up with a
secret, a hash parameter name (`_hash` by default), a timestamp parameter name
(`_timestamp` by default) and an optional clock.

- `sign` may add an expiry timestamp to a URL's query parameters. It then adds
  the keyed hash of the URL's canonical string.
- `check` strips the hash and recomputes it over what is left. If the two agree,
  it then looks at the timestamp.
- The canonical string comes from `buildUrl`. It sorts the parameters with
  `ksort(SORT_STRING)`, renders them with `http_build_query` and reassembles the
  URL components.

The model is split into five modules:

- `Wrappers`: `Option` and `Result`.
- `PhpStrings`:
  - PHP's byte-wise string order, as used by `SORT_STRING`;
  - PHP string truthiness ("" and "0" are false);
  - rendering an integer in decimal and reading it back with an `(int)` cast.
- `PhpArray`: the PHP parameter array, as an ordered sequence of key/value pairs
  with distinct keys. It covers:
  - lookup;
  - `$a[$k] = $v`, which keeps the position of an existing key and otherwise
    appends;
  - `unset`;
  - `ksort`, as a sort function proved sorted and a permutation;
  - `http_build_query`, with `urlencode` escaping.
- `CanonicalUrl`: the URL components that `parse_url` reports, and `buildUrl`.
- `Signer`:
  - the configuration;
  - the error values;
  - `sign` and `check` as specification functions (`SignedParams`, `CheckParams`);
  - the class `UriSigner`, whose methods build the parameter array step by step
    as the PHP code does and are proved equal to those functions;
  - the round-trip and order-independence lemmas.

The keyed hash (`base64_encode(hash_hmac('sha256', …))`) is a function-valued
field of the configuration. Its result always has 44 characters, the length of
a base64-encoded 32-byte MAC, so a real hash is never PHP-empty. The clock's
reading is an argument of each call. `None` stands for a signer built without
a clock.

Where the PHP text cannot run as written, the model follows what the
surrounding code and the exception class evidently mean:

- Line 24 declares the clock property under the name `$timestampParameter`;
  the model treats it as `$clock`.
- Line 64 tests `$expiresInMinutes`; the model tests the `$expiresInSeconds`
  argument, with `> 0`.
- Lines 65-66 and 70 throw generic exceptions, one of them with a typo
  (`$null === this->clock`). The model returns the two errors named in
  `Exception/UrlSignerSignException.php:16-24`.
- Lines 94, 98 and 99 read `$this->parameter`; the model reads the hash
  parameter.
- Lines 101-103 leave the mismatch branch empty (`// Exception`). The model
  answers `false` there, as line 95 does for a missing hash.
- Line 106 writes `$$this`, and line 107 uses undefined variables. The model
  compares the cast timestamp with the clock's reading. It reports
  `ExpiredUrl(expiresAt, now)` when the timestamp is not after `now`.
- Check has no final `return` after line 109; the model answers `true` there.
- Line 106 reads the clock without testing for it. When a timestamp is present
  and there is no clock, the model reports `MissingClockComponent`.

## Model

| member | source | states |
|---|---|---|
| PhpStrings.LessIsFirstDifference | src/Symfony/Component/HttpKernel/UriSigner.php:127 | the byte-by-byte comparison `Less` that `SORT_STRING` uses holds exactly when `a` is a proper prefix of `b`, or `a` has the smaller byte at the first position where they differ |
| PhpStrings.LessIrreflexive | src/Symfony/Component/HttpKernel/UriSigner.php:127 | no key sorts strictly before itself under the `SORT_STRING` byte order |
| PhpStrings.LessAsymmetric | src/Symfony/Component/HttpKernel/UriSigner.php:127 | if `a` sorts before `b`, then `b` does not sort before `a` |
| PhpStrings.LessTransitive | src/Symfony/Component/HttpKernel/UriSigner.php:127 | the `SORT_STRING` order is transitive |
| PhpStrings.LessTotal | src/Symfony/Component/HttpKernel/UriSigner.php:127 | of two distinct keys, one sorts before the other, so `ksort` has a single answer |
| PhpStrings.Truthy | src/Symfony/Component/HttpKernel/UriSigner.php:94-95 | PHP's string-to-bool conversion, false only for "" and "0", is true for every string of two or more characters |
| PhpStrings.NatToString | src/Symfony/Component/HttpKernel/UriSigner.php:128-132 | a rendered port or timestamp is a non-empty string of decimal digits, with a leading zero only for 0 |
| PhpStrings.NatToStringValue | src/Symfony/Component/HttpKernel/UriSigner.php:128 | the decimal digits written for `n` denote `n` |
| PhpStrings.IntToString | src/Symfony/Component/HttpKernel/UriSigner.php:73 | a rendered timestamp is non-empty; it starts with `-` exactly when it is negative; the rest is decimal digits |
| PhpStrings.ToInt | src/Symfony/Component/HttpKernel/UriSigner.php:106 | the `(int)` cast reads a plain string of digits as its decimal value, and gives a negative number only for a string containing `-` |
| PhpStrings.ToIntOfIntToString | src/Symfony/Component/HttpKernel/UriSigner.php:73 | `(int)` applied to the rendered timestamp (line 106) gives back the integer stored at line 73 |
| PhpArray.Lookup | src/Symfony/Component/HttpKernel/UriSigner.php:98 | a lookup finds a value exactly when the key is present, and the value is paired with that key |
| PhpArray.LookupFindsEntry | src/Symfony/Component/HttpKernel/UriSigner.php:98 | with distinct keys, the lookup of `k` gives `v` if and only if the pair `(k, v)` is in the array |
| PhpArray.Put | src/Symfony/Component/HttpKernel/UriSigner.php:73 | assignment keeps keys distinct; the new pairs are the old ones with key `k` dropped, plus `(k, v)`; a new key is appended at the end; with an existing key, every position holds what it held before, except that the entry for `k` now holds `v` |
| PhpArray.Replace | src/Symfony/Component/HttpKernel/UriSigner.php:77 | the value of an existing key is replaced at its own position; the length and every other entry are unchanged |
| PhpArray.PutLookup | src/Symfony/Component/HttpKernel/UriSigner.php:77 | after assignment, `k` reads `v` and every other key reads as before |
| PhpArray.Remove | src/Symfony/Component/HttpKernel/UriSigner.php:99 | after `unset`, the key is absent and every other key reads as before; the pairs are the old ones without key `k`; an absent key changes nothing |
| PhpArray.RemoveAfterAppend | src/Symfony/Component/HttpKernel/UriSigner.php:99 | unsetting a key just appended undoes the append |
| PhpArray.Insert | src/Symfony/Component/HttpKernel/UriSigner.php:127 | inserting a pair whose key is new into a sorted array keeps it sorted, and adds exactly that pair |
| PhpArray.KSort | src/Symfony/Component/HttpKernel/UriSigner.php:127 | `ksort` output is strictly sorted by key, has distinct keys and is a permutation of its input |
| PhpArray.KSortEntries | src/Symfony/Component/HttpKernel/UriSigner.php:127 | sorting keeps exactly the same key/value pairs |
| PhpArray.SortedByKeyUnique | src/Symfony/Component/HttpKernel/UriSigner.php:127 | two key-sorted arrays with the same pairs are equal |
| PhpArray.KSortDependsOnlyOnEntries | src/Symfony/Component/HttpKernel/UriSigner.php:127 | arrays holding the same pairs in any order sort to the same array |
| PhpArray.KSortKeepsLookups | src/Symfony/Component/HttpKernel/UriSigner.php:127 | every key reads the same before and after sorting |
| PhpArray.EncodeByte | src/Symfony/Component/HttpKernel/UriSigner.php:128 | one escaped byte takes 1 or 3 characters, 3 exactly when it starts with `%`, and never yields the separators `&` or `=` |
| PhpArray.EncodeByteInjective | src/Symfony/Component/HttpKernel/UriSigner.php:128 | two bytes with the same escape are the same byte |
| PhpArray.UrlEncode | src/Symfony/Component/HttpKernel/UriSigner.php:128 | an escaped string is at least as long as the original, at most three times as long, and free of `&` and `=` |
| PhpArray.UrlEncodeInjective | src/Symfony/Component/HttpKernel/UriSigner.php:128 | `urlencode` loses nothing: two byte strings with the same encoding are equal |
| PhpArray.EncodePair | src/Symfony/Component/HttpKernel/UriSigner.php:128 | a rendered pair contains its `=` and no `&` |
| PhpArray.EncodePairInjective | src/Symfony/Component/HttpKernel/UriSigner.php:128 | a rendered `key=value` pair of byte strings determines its key and its value |
| PhpArray.QueryString | src/Symfony/Component/HttpKernel/UriSigner.php:128 | the query string is empty exactly when there are no parameters; otherwise it is PHP-true and contains `=`; it contains `&` exactly when there are two or more parameters |
| PhpArray.QueryStringInjective | src/Symfony/Component/HttpKernel/UriSigner.php:128 | two arrays of byte strings with the same query string are equal, order included |
| CanonicalUrl.UserInfo | src/Symfony/Component/HttpKernel/UriSigner.php:133-135 | with a password the user information is `user:pass@`; without one it is the user, followed by `@` exactly when the user is PHP-true; `@` ends it exactly when the user is PHP-true or a password is present |
| CanonicalUrl.BuildUrlLayout | src/Symfony/Component/HttpKernel/UriSigner.php:125-141 | the contract of `BuildUrl`: the canonical string is scheme `://`, user information, host, `:` port, path, `?` sorted query, `#` fragment; each absent part adds nothing; `?` appears exactly when there are parameters |
| CanonicalUrl.BuildUrlDependsOnlyOnEntries | src/Symfony/Component/HttpKernel/UriSigner.php:127-128 | the canonical string does not depend on the order of the parameters |
| CanonicalUrl.BuildUrlDeterminesEntries | src/Symfony/Component/HttpKernel/UriSigner.php:125-141 | parameter arrays of byte strings that give the same canonical string hold the same key/value pairs |
| CanonicalUrl.BuildUrlSensitiveToPathAndHost | src/Symfony/Component/HttpKernel/UriSigner.php:131-136 | changing only the path, or only the host, of a URL to a different text changes its canonical string |
| CanonicalUrl.BuildUrlSensitiveToPath | src/Symfony/Component/HttpKernel/UriSigner.php:136 | changing only the path to a different text changes the canonical string |
| CanonicalUrl.BuildUrlSensitiveToHost | src/Symfony/Component/HttpKernel/UriSigner.php:131 | changing only the host to a different text changes the canonical string |
| CanonicalUrl.UserZeroHasNoAtSign | src/Symfony/Component/HttpKernel/UriSigner.php:135 | a user of "0" with no password is written without `@` |
| Signer.ComputeHash | src/Symfony/Component/HttpKernel/UriSigner.php:120-123 | the hash is the configured keyed hash of the secret and the canonical string, and is never PHP-false, because every digest has the 44 characters of a base64-encoded 32-byte MAC, so line 94 never rejects a genuine hash |
| Signer.Stamp | src/Symfony/Component/HttpKernel/UriSigner.php:64-74 | with an expiry: no clock fails with `MissingClockComponent`; an existing timestamp parameter fails with `TimestampParameterAlreadyPresent`; otherwise `now + expiresInSeconds` is appended; with no expiry the parameters are unchanged |
| Signer.SignedParams | src/Symfony/Component/HttpKernel/UriSigner.php:55-80 | sign succeeds exactly when stamping does, with the same error; the signed parameters have distinct keys; the hash parameter holds the keyed hash of the stamped parameters' canonical string |
| Signer.SignKeepsOtherParameters | src/Symfony/Component/HttpKernel/UriSigner.php:73-77 | sign changes no parameter other than the hash and the timestamp; the timestamp is `now + expiresInSeconds` when an expiry is requested |
| Signer.HashIsAddedLast | src/Symfony/Component/HttpKernel/UriSigner.php:76-79 | when the URL had no hash parameter, the signed parameters are the stamped ones followed by the hash |
| Signer.ExpiryVerdict | src/Symfony/Component/HttpKernel/UriSigner.php:105-109 | with no timestamp, or one later than now: true; a timestamp with no clock: `MissingClockComponent`; otherwise `ExpiredUrl(timestamp, now)` with the timestamp not after now; never false |
| Signer.CheckParams | src/Symfony/Component/HttpKernel/UriSigner.php:85-110 | check returns false exactly when the hash is missing, PHP-empty, or not the keyed hash of the other parameters; otherwise it returns the expiry verdict on the timestamp |
| Signer.CheckDependsOnlyOnEntries | src/Symfony/Component/HttpKernel/UriSigner.php:94-103 | check does not depend on the order of the parameters |
| Signer.CheckOfSortedParams | src/Symfony/Component/HttpKernel/UriSigner.php:127 | checking the parameters in `ksort` order gives the same answer |
| Signer.TamperedHashRejected | src/Symfony/Component/HttpKernel/UriSigner.php:94-103 | an authentic URL with its hash removed, or replaced by any other value, checks as false |
| Signer.TamperedParametersNeedCollision | src/Symfony/Component/HttpKernel/UriSigner.php:98-103 | if two parameter arrays of byte strings differ outside the hash, and both check as authentic under the same hash value, then their canonical strings differ but share one keyed hash: accepting tampered parameters needs a collision of the keyed hash |
| Signer.TamperedPathOrHostNeedsCollision | src/Symfony/Component/HttpKernel/UriSigner.php:98-103 | if a URL and a copy with only its path or only its host changed both check as authentic with the same parameters, then their canonical strings differ but share one keyed hash: accepting the change needs a collision of the keyed hash |
| Signer.AppendedHashChecks | src/Symfony/Component/HttpKernel/UriSigner.php:76-77 | parameters without a hash become authentic once their own keyed hash is appended; check then gives only the expiry verdict |
| Signer.StampedParameters | src/Symfony/Component/HttpKernel/UriSigner.php:64-74 | stamping parameters free of both reserved keys succeeds and adds no hash; the expiry verdict on the timestamp it leaves is the expected outcome |
| Signer.VerdictOnRenderedStamp | src/Symfony/Component/HttpKernel/UriSigner.php:105-107 | the expiry test on the timestamp that sign rendered gives the expected outcome at the check time |
| Signer.SignThenCheck | src/Symfony/Component/HttpKernel/UriSigner.php:55-110 | for parameters free of both reserved keys, sign succeeds; check then gives true without an expiry; with one, true strictly before `now + expiresInSeconds` and `ExpiredUrl` from then on, or `MissingClockComponent` with no clock |
| Signer.SignedUrlChecks | src/Symfony/Component/HttpKernel/UriSigner.php:79 | the same round trip holds for the parameters in the order the signed URL lists them |
| Signer.StampDependsOnlyOnEntries | src/Symfony/Component/HttpKernel/UriSigner.php:64-74 | stamping treats two orderings of the same parameters alike |
| Signer.SignDependsOnlyOnEntries | src/Symfony/Component/HttpKernel/UriSigner.php:55-80 | two orderings of the same parameters fail alike, or get the same hash and the same signed string |
| Signer.UriSigner.constructor | src/Symfony/Component/HttpKernel/UriSigner.php:34-44 | the signer stores its secret and the two parameter names, defaulting to `_hash` and `_timestamp` |
| Signer.UriSigner.Sign | src/Symfony/Component/HttpKernel/UriSigner.php:55-80 | the method fails exactly when `SignedParams` does, with the same error; otherwise it returns the canonical string of the signed parameters |
| Signer.UriSigner.Check | src/Symfony/Component/HttpKernel/UriSigner.php:85-110 | the method returns exactly `CheckParams` |

## Left out

- `parse_url` and `parse_str` are not modelled. Each call takes the URL already
  split into components, with its query as a parameter array. The round trip
  is therefore stated on parameter arrays. It assumes that parsing the signed
  string gives back the signed parameters. That is not true for every
  parameter name; the Signer.SignThenCheck line below says when it fails.
- Nested array parameters (`a[b]=c`) are not modelled; parameters are flat
  strings.
- HMAC-SHA-256 and base64 are left abstract as the configured keyed hash.
  Collision resistance is not modelled. A changed parameter (for byte
  strings), a changed path and a changed host each change the canonical
  string. Whether check then rejects the URL depends on the hash having no
  collision there. Changes to the scheme, user information, port or fragment
  are not covered by a lemma.
- `hash_equals` is modelled as plain string equality. Its constant running
  time is not captured.
- The clock is a reading passed to each call, not an object the signer holds.
- `checkRequest` (lines 112-118) reads the query from an HTTP request object,
  which is not part of this model.
- `now + expiresInSeconds` and the `(int)` cast are unbounded. PHP's 64-bit
  overflow to float is not modelled.
- PhpStrings.ToInt: reads leading whitespace, an optional sign and the leading
  digits. It does not model the exponent or float forms, or the saturation
  that PHP's cast applies to numeric strings.
- PhpArray.EncodeByte: escapes characters up to 0xFF as one `%XX`. It does not
  model the UTF-8 encoding of characters above 0xFF.
- Signer.SignThenCheck: assumes that `parse_url` and `parse_str` give back
  exactly the components and parameters that were signed. This fails for some
  configurations. `parse_str` turns `.` and spaces in key names into `_`,
  cuts a key at `[`, and drops an empty key. So with a hash or timestamp
  parameter name that is empty or contains `.`, a space or `[`, the PHP
  `check` of a signed URL reads a key that parsing never produces. Then it
  returns false, or ignores the expiry. The lemma, like SignedUrlChecks, also
  assumes that the URL components re-parse to the same canonical prefix.
- Signer.SignThenCheck: requires distinct hash and timestamp parameter names
  when an expiry is requested. With equal names the hash overwrites the
  timestamp. The signed URL then carries no expiry, so none is enforced. The
  round trip need not hold, since the hash covers a string that still held
  the timestamp.
- CanonicalUrl.UserZeroHasNoAtSign: shows that a user "0" without a password
  is written without `@`. This follows PHP's truthiness. It is modelled as
  written, not corrected.
