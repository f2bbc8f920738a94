# SDI OS LTI bridge: a verified model

The `sdios_lti` application lets a learning management system (an LTI
consumer) launch a student into an SDI OS environment. An LTI 1.0 launch
is an OAuth 1.0 signed POST. The application:

- checks the signature;
- maps the (consumer, LTI user id) pair to an SDI OS account, creating or
  repairing that account through the SDI OS API;
- copies the template environment into the account;
- stops the user's other environments;
- redirects the browser to a one-time login URL.

An administrator view lists every environment, sorted by owner and name,
without the accounts the bridge created. A settings form cleans the SDI OS
URL the administrator types.

The project models these parts. Each file holds one module.

**The signature check** (`LtiSignature`, with `Sequences`, `Percent`,
`TextCodecs` and `Ordering`). This covers:

- the required-key and fixed-value checks and their messages;
- normalisation of the request parameters (the raw `name=value` byte
  strings, sorted and joined);
- the signature base string, with OAuth percent-encoding;
- the signing key;
- the comparison of the decoded signature with the HMAC digest.

**The local tables** (`Records`). Consumers, environment maps, user maps
and the settings row, with their uniqueness constraints. Also the consumer
lookups, the account parameter set, and the generated username and
password.

**The SDI OS service** (`Backing`). An in-memory account and environment
store. Its calls fail where the real API answers with an error status:
an unknown key, a running environment, a taken name. Any chosen request can
also fail, through the `failing` set of request numbers. The class
`Service` holds this state and its `Request` method answers one call.

**Provisioning** (`Provisioning`). `Setting.get`, `UserMap.get` (find,
repair, or replace a stale mapping) and `UserMap.login` (copy the template,
re-find the copy, stop the others, compose the URL). Each is a function
over the database value and the service state. The class `Store` holds the
four tables as fields, and its methods talk to a `Service` one request at a
time. Every method is proved equal to its function.

**The views** (`Views`). The `lti` view's mapping from each stage's outcome
to an HTTP response. The `view_environments` listing: the owner-cache loop
(`AnnotateAll`), the owner/name order and the filter of LTI-owned accounts.

**The settings form** (`Forms`). `clean_sdios_url`, with the Python
regular-expression semantics it relies on.

Notes on the source:

- `models.py` is written for Python 2: `filter` returns a list that is
  indexed, `os.urandom(8).encode("hex")` and `string.letters` appear.
  `views.py` and `utils.py` use Python 3 (f-strings, `urllib.parse`). The
  model follows each file as written. A list-returning `filter` indexed by
  `[0]` is its first match.
- `__normalize_request_parameters` sorts whole raw `name=value` byte
  strings and never decodes them. This departs from section 9.1.1 of OAuth
  Core 1.0, which sorts by decoded name and then value. The model follows
  the code.

## Model

| member | source | states |
|---|---|---|
| Sequences.Split | sdios_lti/utils.py:117-119 | `bytes.split(sep)` yields at least one piece, and no piece contains the separator |
| Sequences.ReplaceAll | sdios_lti/utils.py:115 | replacing `x` leaves no `x` when the replacement has none, and leaves a string without `x` unchanged |
| Sequences.JoinSplit | sdios_lti/utils.py:117-122 | joining the pieces of a split gives back the original bytes |
| Sequences.SplitJoin | sdios_lti/utils.py:122 | splitting a join of separator-free pieces gives back the pieces |
| Sequences.SplitWithoutSeparator | sdios_lti/utils.py:117 | a string without the separator splits into itself alone |
| Sequences.SplitAfterPiece | sdios_lti/utils.py:117 | splitting `x + sep + t` puts `x` first and then the pieces of `t` |
| Sequences.JoinExcludes | sdios_lti/utils.py:122 | a joined string contains a non-separator element only if some piece does |
| Sequences.JoinIncludes | sdios_lti/utils.py:91 | every element of every piece occurs in the join |
| Sequences.FindFrom | sdios_lti/models.py:280 | the first occurrence of the pattern at or after `k`, or none at all |
| Sequences.SecondField | sdios_lti/models.py:280 | `s.split(sep)[1]`: defined iff `sep` is non-empty and occurs; it is the text after the first occurrence up to the next one or the end |
| Sequences.SecondFieldAfterSeparator | sdios_lti/models.py:280 | after a leading separator with no later one, `[1]` is the rest |
| Percent.HexDigit | sdios_lti/utils.py:151 | an upper-case hex digit is an unreserved byte |
| Percent.HexValue | sdios_lti/utils.py:151 | reading a hex digit inverts writing it |
| Percent.EncodeByte | sdios_lti/utils.py:151 | one byte's encoding holds only unreserved bytes and `%` |
| Percent.Encode | sdios_lti/utils.py:151 | `quote_from_bytes(part, b"")` holds only unreserved bytes and `%`, and is no shorter than its input |
| Percent.HexSplit | sdios_lti/utils.py:151 | a byte's two hex digits read back as that byte |
| Percent.DecodeEncode | sdios_lti/utils.py:151 | decoding an encoding gives back the bytes |
| Percent.EncodeDecode | sdios_lti/utils.py:151 | whatever decodes to `s` is exactly the encoding of `s` |
| Percent.EncodeInjective | sdios_lti/utils.py:151 | different byte strings have different encodings |
| Percent.EncodeUnreserved | sdios_lti/utils.py:60 | unreserved bytes are left as they are |
| TextCodecs.Utf8Char | sdios_lti/utils.py:146 | a code point encodes to 1 to 4 bytes: ASCII as itself, any other as bytes of value 0x80 or more |
| TextCodecs.Utf8 | sdios_lti/utils.py:63 | `str.encode()` is no shorter than the string |
| TextCodecs.Utf8Ascii | sdios_lti/utils.py:146 | an ASCII string encodes to itself |
| TextCodecs.Utf8Append | sdios_lti/utils.py:146 | the encoding of a concatenation is the concatenation of the encodings |
| TextCodecs.Utf8AsciiPrefix | sdios_lti/utils.py:146 | an ASCII prefix survives the encoding unchanged |
| TextCodecs.HtmlEscape | sdios_lti/utils.py:95 | the escaped text has no `<` or `>`, and text without `&`, `<` or `>` is unchanged |
| TextCodecs.UnescapeEscapeChar | sdios_lti/utils.py:95 | unescaping one escaped character gives it back |
| TextCodecs.UnescapeEscape | sdios_lti/utils.py:95 | unescaping the escaped text gives back the provided value |
| TextCodecs.LowerHexDigit | sdios_lti/models.py:160 | a nibble is written as a lower-case hex digit |
| TextCodecs.LowerHexValue | sdios_lti/models.py:160 | reading a lower-case hex digit inverts writing it |
| TextCodecs.LowerHex | sdios_lti/models.py:160 | `.encode("hex")` writes two lower-case hex digits per byte |
| TextCodecs.LowerHexDigitValue | sdios_lti/models.py:160 | writing then reading a nibble is the identity |
| TextCodecs.ParseLowerHexInverse | sdios_lti/models.py:160 | the hex text reads back as the random bytes |
| Ordering.LexLeTotal | sdios_lti/views.py:136-141 | any two strings are comparable |
| Ordering.LexLeAntisymmetric | sdios_lti/views.py:136-141 | strings that compare both ways are equal |
| Ordering.LexLeTransitive | sdios_lti/views.py:136-141 | the string order is transitive |
| Ordering.LexLeIsTotalOrder | sdios_lti/utils.py:122 | Python's code-point order is a total order |
| Ordering.Insert | sdios_lti/views.py:143 | inserting adds exactly one element and keeps the others |
| Ordering.Sort | sdios_lti/views.py:143 | `sorted` returns a permutation of its input |
| Ordering.InsertSorted | sdios_lti/views.py:143 | inserting into a sorted list keeps it sorted |
| Ordering.SortSorted | sdios_lti/views.py:143 | for a total comparator the result is sorted |
| Ordering.SortedHeadLeast | sdios_lti/views.py:143 | the head of a sorted list is below every later element |
| Ordering.SortedPairs | sdios_lti/views.py:143 | in a sorted list every earlier element is below every later one |
| Ordering.SortedCons | sdios_lti/views.py:143 | a head below the first element of a sorted list keeps it sorted |
| Ordering.SortedHeadIsLeast | sdios_lti/views.py:143 | the head of a sorted list is below each of its other members |
| Ordering.SortedUnique | sdios_lti/utils.py:122 | two sorted permutations of each other are equal |
| Ordering.SortIdempotent | sdios_lti/utils.py:122 | sorting a sorted list changes nothing |
| Ordering.SortDependsOnMultiset | sdios_lti/utils.py:122 | `sorted` depends only on the multiset of its input |
| Records.GetConsumer | sdios_lti/models.py:20-35 | `Consumer.get_consumer`: absent iff no consumer has the key; otherwise a consumer with that key, the only one when keys are unique |
| Records.GetSecret | sdios_lti/models.py:37-51 | `get_secret`: absent iff the key is unknown; with unique keys it is that consumer's secret |
| Records.UserParamsFor | sdios_lti/models.py:179-203 | the account parameters: display name = username, empty email, active, not superuser, not tenancy admin, and exactly the `access_sdis`, `allow_nas`, `start_sdis` permissions |
| Records.GeneratedUsername | sdios_lti/models.py:160 | `"SDIOS-LTI-"` followed by two lower-case hex digits per random byte, which read back as those bytes |
| Records.Choose | sdios_lti/models.py:157-158 | `__get_rand_chars` draws the requested number of characters, each from the alphabet |
| Records.Sample | sdios_lti/models.py:162 | `random.sample(pool, len(pool))` is a permutation of the pool |
| Records.LetterClass | sdios_lti/models.py:161 | `string.letters` holds letters only |
| Records.DigitClass | sdios_lti/models.py:161 | `string.digits` holds digits only |
| Records.PunctuationClass | sdios_lti/models.py:161 | `string.punctuation` holds punctuation only |
| Records.CountIfAppend | sdios_lti/models.py:161 | counting over a concatenation adds the counts |
| Records.CountIfRemove | sdios_lti/models.py:162 | removing one character lowers the count by whether it qualifies |
| Records.CountIfPermutation | sdios_lti/models.py:162 | a permutation keeps every class count |
| Records.CountIfUniform | sdios_lti/models.py:161 | a string all of one class counts its full length or zero |
| Records.CountIfThree | sdios_lti/models.py:161 | counts add over the three drawn groups |
| Records.ChosenClasses | sdios_lti/models.py:161 | the drawn characters are 16: 10 letters, 3 digits, 3 punctuation |
| Records.ChosenLetters | sdios_lti/models.py:161 | the letters of the draw are exactly the letter group |
| Records.ChosenDigits | sdios_lti/models.py:161 | the digits of the draw are exactly the digit group |
| Records.ChosenPunctuation | sdios_lti/models.py:161 | the punctuation of the draw is exactly the punctuation group |
| Records.GeneratedPassword | sdios_lti/models.py:161-162 | the password has length 16, is a permutation of the drawn characters, and holds 10 letters, 3 digits and 3 punctuation characters |
| LtiSignature.Absent | sdios_lti/utils.py:89 | the missing keys are exactly the required keys not in the POST |
| LtiSignature.AbsentCount | sdios_lti/utils.py:89 | each absent key is listed as often as it is required, and a present key never |
| LtiSignature.FirstWrongValue | sdios_lti/utils.py:93-95 | none iff every fixed value matches; otherwise the first rule, in declaration order, that fails |
| LtiSignature.CheckKeysOf | sdios_lti/utils.py:88-95 | passing means every required key is present |
| LtiSignature.CheckKeysMissing | sdios_lti/utils.py:88-91 | a missing-keys error iff some required key is absent; it names the absent keys, sorted, each as often as required |
| LtiSignature.CheckKeysValues | sdios_lti/utils.py:93-95 | with all keys present: passing iff every fixed value matches; an error reports the first failing rule and the provided value |
| LtiSignature.SourceKeyLists | sdios_lti/utils.py:82-88 | every key with a fixed value is required; the consumer key and signature come first |
| LtiSignature.CheckKeys | sdios_lti/utils.py:70-95 | `__validate_keys`: passing guarantees the consumer key and signature are present |
| LtiSignature.MissingMessageNames | sdios_lti/utils.py:91 | the message is `"Missing keys: "` and the names, which split back out at the commas |
| LtiSignature.RequiredKeysHaveNoComma | sdios_lti/utils.py:88 | no required key contains a comma, so the joined names are unambiguous |
| LtiSignature.ValueMessageProvided | sdios_lti/utils.py:95 | the value message starts with the rule's text and embeds the escaped value, which unescapes to what was provided |
| LtiSignature.EscapeLength | sdios_lti/utils.py:95 | escaping never shortens |
| LtiSignature.ByteLeIsTotalOrder | sdios_lti/utils.py:122 | the raw byte order of entries is a total order |
| LtiSignature.DropSignature | sdios_lti/utils.py:122 | no kept entry is named `oauth_signature`; every other entry is kept as often as it occurs |
| LtiSignature.DropSignatureSorted | sdios_lti/utils.py:122 | dropping entries keeps the sorted order |
| LtiSignature.DropSignatureKeeps | sdios_lti/utils.py:122 | every kept entry comes from the request |
| LtiSignature.SignedEntries | sdios_lti/utils.py:122 | the signed entries are sorted and are exactly the non-signature entries, duplicates included |
| LtiSignature.EntriesOfRequest | sdios_lti/utils.py:115-119 | the body's entries join back to the body with every `+` made `%20`; no body entry keeps a `+`; an empty query gives no entries; a non-empty one is split as is |
| LtiSignature.NormalizedSplitsBack | sdios_lti/utils.py:117-122 | the normalised string splits at `&` into exactly the signed entries |
| LtiSignature.NormalizeOrderIndependent | sdios_lti/utils.py:117-122 | the normalised string depends only on the multiset of entries, not on their order |
| LtiSignature.RequestUrl | sdios_lti/utils.py:142-146 | the URL starts with `https://` iff the port is 443, and with `http://` otherwise |
| LtiSignature.BaseStringParts | sdios_lti/utils.py:144-151 | the base string starts with `POST&`, splits at `&` into exactly three parts, and its second and third parts decode back to the URL and the parameters |
| LtiSignature.EncodePost | sdios_lti/utils.py:145 | `POST` encodes to itself |
| LtiSignature.EncodedHasNoAmpersand | sdios_lti/utils.py:151 | an encoded part has no `&` |
| LtiSignature.ThreeParts | sdios_lti/utils.py:151 | three `&`-free parts joined by `&` split back into those parts |
| LtiSignature.SigningKey | sdios_lti/utils.py:60 | the key is the encoded secret followed by `&`, and the encoded part decodes to the secret's UTF-8 |
| LtiSignature.Authenticate | sdios_lti/utils.py:51-67 | a missing port or host fails; "invalid consumer key" iff the key is unknown; valid iff the decoded signature equals the HMAC of the base string under the signing key; "Signature validation failed" iff it decodes to a different value |
| LtiSignature.ValidateSignature | sdios_lti/utils.py:21-67 | a bad request iff the key check fails, and then with that problem; otherwise the verdict on the normalised parameters |
| LtiSignature.ValidateOrderIndependent | sdios_lti/utils.py:50-67 | reordering the request's entries between body and query leaves the verdict unchanged |
| LtiSignature.TamperedParametersRejected | sdios_lti/utils.py:63-67 | with a collision-free HMAC, a request valid for one parameter string is rejected for any other |
| Backing.FindAccount | sdios_lti/api.py:71-88 | `GET accounts/users/{pk}` finds an account with that key, or none iff no account has it |
| Backing.FindEnvironment | sdios_lti/models.py:230 | an environment with that id, or none iff no environment has it |
| Backing.SetParams | sdios_lti/models.py:174 | the PUT replaces the parameters of the account with that key and no other |
| Backing.RemoveEnvironment | sdios_lti/models.py:243 | the DELETE removes exactly the environments with that id |
| Backing.StopIn | sdios_lti/models.py:277 | a stop clears the running flag of that environment and changes nothing else |
| Backing.ServeFrame | sdios_lti/api.py:48-131 | every request is counted and logged; it fails when its number is in the failing set; a failed or read-only request changes no account or environment |
| Backing.ServeQuery | sdios_lti/api.py:71-88 | the three list reads answer the current accounts, tenancy or environments |
| Backing.ServeStop | sdios_lti/models.py:277 | a stop request fails iff it is a failing request or the environment is unknown |
| Backing.ServeToken | sdios_lti/models.py:279 | a token request answers a login URL iff the account exists and the request does not fail |
| Backing.ServeFetches | sdios_lti/views.py:116-122 | the account fetch and environment list answer as the lookups say |
| Backing.SetParamsFind | sdios_lti/models.py:174 | after the PUT the account carries the new parameters |
| Backing.ServeValid | sdios_lti/api.py:48-131 | every request keeps account keys and usernames unique and environment ids unique |
| Backing.CreateValid | sdios_lti/models.py:165 | creating an account with a free username keeps the accounts valid |
| Backing.UpdateValid | sdios_lti/models.py:174 | updating an account without taking another's username keeps the accounts valid |
| Backing.AppendValid | sdios_lti/models.py:257 | a copy under a fresh id keeps the environments valid |
| Backing.RemoveValid | sdios_lti/models.py:243 | a deletion keeps the environments valid |
| Backing.Service.constructor | sdios_lti/api.py:24-46 | the client starts on the given service state |
| Backing.Service.Request | sdios_lti/api.py:48-131 | one request: the reply and the new state are those of the service's transition |
| Provisioning.FindByUsername | sdios_lti/models.py:125-127 | `get_sdios_user`: the first account with the mapping's username, or none iff there is none |
| Provisioning.FindUserMap | sdios_lti/models.py:152 | the mapping for (consumer, LTI user id), or none iff there is none |
| Provisioning.Delete | sdios_lti/models.py:154 | `usermap.delete()` (and `source_environment.delete()` at line 232) removes exactly that row and keeps every other |
| Provisioning.SaveUserMap | sdios_lti/models.py:166-167 | the save fails iff it breaks `unique_together` or the unique username; otherwise it appends the mapping |
| Provisioning.FindOwned | sdios_lti/models.py:240 | the first of the user's environments with that name, or none iff there is none |
| Provisioning.Others | sdios_lti/models.py:276 | exactly the user's environments whose name differs from the template's |
| Provisioning.StopCalls | sdios_lti/models.py:276-277 | one stop request per environment, in order |
| Provisioning.SettingGetIdempotent | sdios_lti/models.py:299-316 | `Setting.get` returns the first row, or creates one default row; a second call returns the same row and changes nothing |
| Provisioning.DefaultSettingBlank | sdios_lti/models.py:292-296 | the default row has URL `127.0.0.1:8000` and blank credentials |
| Provisioning.GetReusesMapping | sdios_lti/models.py:147-176 | an existing mapping whose account is listed is returned unchanged; the tables are untouched and the calls are settings, list, list, PUT |
| Provisioning.GetReplacesStaleMapping | sdios_lti/models.py:151-167 | a mapping whose account is gone is deleted; the first POST creates the freshly generated account; on success the new mapping is saved for the same pair |
| Provisioning.UserMapGetTenancy | sdios_lti/models.py:147-149 | with a known consumer, `UserMap.get` reads the default tenancy and goes on with it |
| Provisioning.GetOrCreateRepairs | sdios_lti/models.py:151-156 | an existing mapping with a listed account goes straight to the repair PUT |
| Provisioning.GetOrCreateReplaces | sdios_lti/models.py:151-167 | a stale mapping is deleted and a fresh one is created |
| Provisioning.CreateUserMapShape | sdios_lti/models.py:164-167 | the account POST comes first; the mapping is saved at most once, and always on success |
| Provisioning.RepairAfterListing | sdios_lti/models.py:172-174 | the repair lists the accounts and PUTs the fixed parameters to the listed account, changing no table |
| Provisioning.RepairAccountLog | sdios_lti/models.py:172-174 | the repair only appends calls and changes no table; if it succeeds, it returns the same mapping |
| Provisioning.RepairSucceeds | sdios_lti/models.py:172-174 | with both calls answered and the account listed, the repair succeeds with the same mapping and rewrites exactly that account's parameters |
| Provisioning.RepairKeepsAccount | sdios_lti/models.py:172-174 | the repair never loses the mapped account |
| Provisioning.RepairPuts | sdios_lti/models.py:172-174 | a successful repair ends with the PUT of the fixed parameters, which the account now carries |
| Provisioning.RepairValid | sdios_lti/models.py:172-174 | the repair keeps the service valid |
| Provisioning.CreateSavesAfterPost | sdios_lti/models.py:164-167 | a new mapping is saved only after a successful account POST, whose account exists |
| Provisioning.RepairNextPk | sdios_lti/models.py:172-174 | the repair creates no account |
| Provisioning.UserMapGetSavesAfterPost | sdios_lti/models.py:130-176 | the only mapping `UserMap.get` can add is the fresh one, and only after its account was created |
| Provisioning.GetOrCreateSavesAfterPost | sdios_lti/models.py:151-176 | as above, from the lookup on |
| Provisioning.UserMapGetPuts | sdios_lti/models.py:130-176 | on success the last call is the PUT of the returned mapping's parameters, which its account now carries |
| Provisioning.GetOrCreatePuts | sdios_lti/models.py:151-176 | as above, from the lookup on |
| Provisioning.CreatePuts | sdios_lti/models.py:164-174 | a successful creation returns the new mapping and ends with its PUT |
| Provisioning.DeleteUserMapUnique | sdios_lti/models.py:97-101 | deleting a mapping keeps both uniqueness constraints |
| Provisioning.DeleteEnvironmentMapUnique | sdios_lti/models.py:75-77 | deleting an environment map keeps its uniqueness constraints |
| Provisioning.SaveUserMapUnique | sdios_lti/models.py:97-101 | a save that succeeds keeps both uniqueness constraints |
| Provisioning.UserMapsValid | sdios_lti/models.py:95-101 | unique mappings whose consumers exist make a valid database |
| Provisioning.CreateValid | sdios_lti/models.py:156-174 | creating a mapping keeps the database and the service valid |
| Provisioning.UserMapGetValid | sdios_lti/models.py:130-176 | `UserMap.get` keeps the database and the service valid |
| Provisioning.UsernameOwner | sdios_lti/models.py:172 | on a valid service the username lookup finds the one account with that username |
| Provisioning.CreateSucceeds | sdios_lti/models.py:165-174 | with the three calls answered, a free username and no clashing row, creation saves the mapping at the end of the table and returns it |
| Provisioning.GetReusesSucceeds | sdios_lti/models.py:147-176 | with the four calls answered, an existing mapping whose account is listed is returned; the tables stay and only that account's parameters are rewritten |
| Provisioning.NoClashAfterDelete | sdios_lti/models.py:153-155 | once the stale mapping is deleted, a new mapping for the same pair with a new username breaks no unique constraint |
| Provisioning.GetReplacesSucceeds | sdios_lti/models.py:151-176 | with the five calls answered and the drawn username free on the service and in the table, the stale mapping is replaced by the new one, which is returned |
| Provisioning.RepairTenancy | sdios_lti/models.py:172-174 | the repair keeps the service's default tenancy |
| Provisioning.CreateTenancy | sdios_lti/models.py:165-174 | creation keeps the default tenancy and the consumers table |
| Provisioning.GetOrCreateStores | sdios_lti/models.py:151-176 | a successful lookup-or-create returns a stored row for the requested pair |
| Provisioning.UserMapGetStores | sdios_lti/models.py:147-176 | a successful `UserMap.get` had an existing consumer and returns a stored row for the requested pair |
| Provisioning.StoredFound | sdios_lti/models.py:152 | under the unique constraint, looking up a row's own pair finds that row |
| Provisioning.SetParamsSame | sdios_lti/models.py:174 | PUTting the parameters an account already has changes no account |
| Provisioning.UserMapGetIdempotent | sdios_lti/models.py:130-176 | after a success, a second `UserMap.get` for the same pair with its four calls answered returns the same mapping, changes no table and no account, whatever the second random draw |
| Provisioning.GetOrCreateValid | sdios_lti/models.py:151-176 | as above, from the lookup on |
| Provisioning.StopAllStep | sdios_lti/models.py:276-277 | the stop loop stops at the first failed stop, and otherwise goes on with the rest |
| Provisioning.StopAllFrame | sdios_lti/models.py:276-277 | the stop loop changes only running flags |
| Provisioning.StopAllLog | sdios_lti/models.py:276-277 | a completed loop sent exactly one stop per environment, in order |
| Provisioning.StopAllStops | sdios_lti/models.py:276-277 | a completed loop stopped exactly the given environments |
| Provisioning.StopAllSucceeds | sdios_lti/models.py:276-277 | the loop completes iff every stop is answered and every environment exists |
| Provisioning.HandOffFound | sdios_lti/models.py:272-282 | once the copy is found: stop the others, get the token, then cut the URL; each failure is reported at its stage |
| Provisioning.HandOffCopyMissing | sdios_lti/models.py:267-272 | the login reports a missing copy iff the re-listing is answered and has no environment of the template's name for the user |
| Provisioning.HandOffSucceeds | sdios_lti/models.py:267-282 | the hand-off succeeds iff the listing, every stop and the token request are answered, the copy exists, the account exists, and the settings URL occurs in the copy's URL |
| Provisioning.HandOffEarly | sdios_lti/models.py:267-272 | a failed re-listing or a missing copy raises |
| Provisioning.OthersStop | sdios_lti/models.py:276-277 | stopping the user's other environments completes iff every stop is answered |
| Provisioning.HandOffResult | sdios_lti/models.py:267-282 | a successful hand-off sent list, stops, token in that order; returns the token URL + `?next=` + the copy's path; stops exactly the others |
| Provisioning.LoginListed | sdios_lti/models.py:222-233 | with both listings answered: no account raises, a vanished template deletes its map and raises, and otherwise the copy and hand-off follow |
| Provisioning.LoginHandsOff | sdios_lti/models.py:222-265 | with the account and template present, login is the copy followed by the hand-off |
| Provisioning.HandOffFaults | sdios_lti/models.py:267-282 | the hand-off raises only a service error, a missing copy or a URL mismatch |
| Provisioning.LoginListingFails | sdios_lti/models.py:222-224 | a failed listing raises and changes nothing |
| Provisioning.LoginNoAccount | sdios_lti/models.py:222-227 | login reports no account iff the username is not listed; the environments were listed first |
| Provisioning.LoginTemplateGone | sdios_lti/models.py:229-233 | login reports the template gone iff no environment has its id, and then its map is deleted |
| Provisioning.CopyTemplateLog | sdios_lti/models.py:240-265 | a delete is tried only when the user has an environment of that name; the copy is always tried |
| Provisioning.CopyLands | sdios_lti/models.py:240-265 | with a stopped template and both requests answered, the user owns an environment of the template's name afterwards |
| Provisioning.LoginCopyLands | sdios_lti/models.py:222-272 | under the same conditions, login does not fail for a missing copy |
| Provisioning.CopyHandOffFinds | sdios_lti/models.py:247-272 | the hand-off after a successful copy finds the copy |
| Provisioning.CopyUrlNext | sdios_lti/models.py:280 | the `next` part of a copy's URL is its `/sdis/<id>` path |
| Provisioning.StopAllValid | sdios_lti/models.py:276-277 | the stop loop keeps the service valid |
| Provisioning.HandOffValid | sdios_lti/models.py:267-282 | the hand-off keeps the service valid and changes at most the settings table |
| Provisioning.CopyTemplateValid | sdios_lti/models.py:240-265 | the delete and copy keep the service valid |
| Provisioning.CopyHandOffValid | sdios_lti/models.py:240-282 | copy and hand-off keep the database and the service valid |
| Provisioning.UserMapLoginValid | sdios_lti/models.py:206-282 | `UserMap.login` keeps the database and the service valid |
| Provisioning.Store.constructor | sdios_lti/models.py:9-101 | the store starts with the given tables |
| Provisioning.Store.GetSetting | sdios_lti/models.py:299-316 | `Setting.get` on the tables: returns and stores what the function does |
| Provisioning.Store.Repair | sdios_lti/models.py:172-174 | the repair against the live service agrees with its function |
| Provisioning.Store.Create | sdios_lti/models.py:156-167 | the creation against the live service agrees with its function |
| Provisioning.Store.GetUserMap | sdios_lti/models.py:130-176 | `UserMap.get` against the live service agrees with its function |
| Provisioning.Store.GetOrCreateMap | sdios_lti/models.py:151-176 | the lookup, repair or replacement agrees with its function |
| Provisioning.Store.Login | sdios_lti/models.py:206-282 | `UserMap.login` against the live service agrees with its function |
| Provisioning.Store.Copy | sdios_lti/models.py:240-265 | the delete and copy, with failures swallowed, agree with their function |
| Provisioning.Store.HandOffTo | sdios_lti/models.py:267-282 | the re-listing, stops, token and URL agree with their function |
| Provisioning.StopOthers | sdios_lti/models.py:276-277 | the stop loop, one request per environment until one fails, agrees with its function |
| Views.FindByKey | sdios_lti/views.py:51 | the environment map with the launch's key, or none iff there is none |
| Views.LtiNotPost | sdios_lti/views.py:28-29 | a non-POST answers 400 "POST data only" and changes nothing |
| Views.LtiUnauthorized | sdios_lti/views.py:31-36 | the view answers 401 iff the request is a POST that the signature check rejects as unauthorized |
| Views.AnswerRejected | sdios_lti/views.py:31-36 | a bad request answers 400 and an unauthorized one 401, each with the check's message, and changes nothing |
| Views.ProvisionAnswers | sdios_lti/views.py:38-62 | after a valid signature the view either redirects or answers 400 |
| Views.ProvisionEarlyStages | sdios_lti/views.py:38-54 | missing parameters, no connection and an unknown environment key each give their own 400 message; the user map is never touched |
| Views.ProvisionRedirects | sdios_lti/views.py:50-62 | a provisioning failure answers "cannot look up information", a login failure "cannot log in", and success redirects to exactly the login URL |
| Views.ExportOf | sdios_lti/views.py:126-132 | the environment's export, or none iff no map has its id |
| Views.DropLtiUsers | sdios_lti/views.py:147-148 | the filter drops exactly the rows owned by an LTI user and keeps every other row as often as it occurs |
| Views.RowLeTotal | sdios_lti/views.py:134-141 | the comparator orders any two rows |
| Views.KeyLeTransitive | sdios_lti/views.py:134-141 | ordering by username and then by name is transitive |
| Views.KeyedRowLe | sdios_lti/views.py:134-141 | when one username means one owner, the comparator orders by username and then by name |
| Views.SortedByOwner | sdios_lti/views.py:134-143 | the sorted listing is ordered by username, and by name within a username |
| Views.DropKeepsOrder | sdios_lti/views.py:147-148 | the filter keeps the order |
| Views.AnnotateFrame | sdios_lti/views.py:119-132 | annotating changes no account or environment |
| Views.AnnotateRows | sdios_lti/views.py:119-132 | each row carries its environment, its owner's account and its export |
| Views.NewOwnersOnce | sdios_lti/views.py:119-124 | the owners to fetch are exactly the uncached ones, each listed once |
| Views.AnnotateCalls | sdios_lti/views.py:119-124 | the loop fetches each uncached owner exactly once, in order of first appearance |
| Views.AnnotateSucceeds | sdios_lti/views.py:119-124 | the loop completes when every fetch is answered and every owner exists |
| Views.AnnotateMissingOwner | sdios_lti/views.py:119-124 | an environment whose owner does not exist makes the loop fail |
| Views.ListingFrame | sdios_lti/views.py:110-148 | the listing reads the settings row and changes no account or environment |
| Views.ListingAnnotated | sdios_lti/views.py:116-143 | a listing is the sorted and filtered annotation of all environments |
| Views.ShownRows | sdios_lti/views.py:143-148 | the rows are ordered by username and name, and are exactly the described rows not owned by an LTI user |
| Views.ListingShows | sdios_lti/views.py:110-148 | `view_environments` lists, in owner/name order, exactly the environments not owned by an LTI user, each with its owner and export |
| Views.ListingCalls | sdios_lti/views.py:116-124 | the listing sends one list call and one fetch per distinct owner |
| Views.ListingSucceeds | sdios_lti/views.py:116-124 | with every request answered and every owner present, the listing is produced |
| Views.ListingMissingOwner | sdios_lti/views.py:119-124 | an environment whose owner does not exist makes the listing fail |
| Views.AnnotateAll | sdios_lti/views.py:119-132 | the owner-cache loop agrees with its function |
| Views.ViewEnvironments | sdios_lti/views.py:110-148 | the view against the live tables and service agrees with its function |
| Forms.SchemeLength | sdios_lti/forms.py:28 | `^https?://` with `re.I` matches 8 characters for `https://`, 7 for `http://`, and otherwise none |
| Forms.StripSlashes | sdios_lti/forms.py:29 | the result is a prefix, does not end in `/`, and only `/` was removed |
| Forms.CleanUrl | sdios_lti/forms.py:23-31 | the cleaned URL never ends with `/` |
| Forms.StripTrailingShortens | sdios_lti/forms.py:29 | stripping shortens the string iff it ends in a slash, before an optional final newline |
| Forms.CleanUrlUnchanged | sdios_lti/forms.py:28-29 | a URL is unchanged iff it has no scheme prefix and no trailing slash |
| Forms.SchemeRemovedOnce | sdios_lti/forms.py:28 | a leading scheme is removed once: a second scheme after it stays |
| Forms.CleanUrlSubstring | sdios_lti/forms.py:28-29 | without a final newline, the result is a contiguous part of the input; only the scheme and trailing slashes are gone |
| Forms.CleanUrlBeforeNewline | sdios_lti/forms.py:29 | with a final newline, the slashes before it are removed and the newline is kept |

## Left out

- The HTTP client in `sdios_lti/api.py` is network I/O: token acquisition, `requests` calls and JSON decoding. It is replaced by the `Service` model. The constructor's outcome (`APIRequest()` raising or not) is the `connected` parameter. Any one request can fail through the service's failing set.
- HMAC-SHA1, base64 decoding and `urllib.parse.unquote` are foreign library calls. They are the function fields of `Primitives`. The model keeps the construction of their inputs and the comparison of the results. A base64 decoding error is `Failure`: an exception the view does not catch. A missing or non-numeric `SERVER_PORT` and a missing `HTTP_HOST` are `Failure` too.
- `os.urandom(8)`, `random.choice` and `random.sample` are randomness. Their outcomes are the `Draw` parameter: the random bytes and the chosen indices. Only the shape of the results is proved.
- `time.sleep(2)` (`sdios_lti/models.py:263`) is a timing workaround. Concurrent launches and races between them are not modelled.
- Ordering.Sort: it is an insertion sort, not Python's timsort. Stability is not proved. `SortedUnique` shows that two sorts agree only under an antisymmetric, transitive comparison. `RowLe` is total (`RowLeTotal`) but is transitive only on rows whose owners are told apart by username. `KeyedRowLe` and `DescribedKeyed` establish that for the listing when the accounts are valid. Rows with the same owner username and environment name may therefore come out in a different relative order than under timsort. The model promises only that the listing is a permutation ordered by username and then name (`SortedByOwner`, `ShownRows`).
- Meta.queryString: `meta["QUERY_STRING"]` is taken as always present. WSGI servers normally set it, empty when there is no query. Its `KeyError` path is not modelled.
- Post: it is the last value per key of `request.POST`, as Django's `QueryDict.__getitem__` returns it. It is an input of its own and is not parsed from the body bytes, so the model does not relate the two.
- Views.AnnotateAll: builds new rows instead of updating the environment dictionaries in place. Nothing else holds those dictionaries, so no aliasing is lost.
- `reverse("lti")` is the `path` parameter of `Lti`.
- Rendering `environments.html` (`sdios_lti/views.py:150-155`) is not modelled. The model stops at the listing handed to the template.
- The other views and forms are template and authentication plumbing and are not part of this model: `login`, `logout`, `index`, the consumer and environment-map management views, `CreateConsumerForm`, `ExportEnvironmentForm` and the rest of `ManageSettingsForm`.
- `MultipleObjectsReturned` cannot occur. Every `objects.get` in the core looks up a field that the uniqueness invariants keep unique.
- The Django ORM (`migrations`, `urls.py`, `admin.py`, `decorators.py`) is framework code. Only the uniqueness constraints are kept, as the `DbValid` invariant.
- `__str__`/`__unicode__` are display code.
- Forms.CleanUrl: Django's `CharField` strips surrounding whitespace before `clean_sdios_url`, so a final newline never reaches it in practice. The model still gives `$` its Python meaning and covers that input.
- The environment URL's `split(...)[1]` with an empty settings URL raises `ValueError`. That case is a failed login (`UrlMismatch`), as the view treats every exception there alike.
