# wpLingua request-scoped core, modelled in Dafny

This project models three pieces of decision logic of the wpLingua
WordPress plugin and proves properties of them:

- **The translation gateway**, `wplng_api_call_translate`
  (`inc/api-call/translate.php`). It sanitises the texts and then passes a
  chain of guards: an API key, usable language ids, non-empty JSON of the
  dictionary-tagged texts, a transport result with status 200, and a
  response with translations. Each failed guard falls back to the
  sanitised texts. After the guards, the untagged translations are
  post-processed item by item. The model is `TranslateApi.Translate` with
  its steps `SanitizeTexts`, `ComposeRequest`, `BuildContext` and
  `CollectTranslations`.
- **The API key and the cached API key data** (`inc/api-key.php`). This
  covers the key-format predicate, `trim` then validate, the sanitising
  branch of `wplng_get_api_data`, the target languages re-ordered by the
  master language list, and the feature whitelist (module `ApiKey`).
- **The JS assignment translator**, `wplng_translate_js`
  (`inc/translator/js.php`). It finds the first `var`/`let`/`window._`
  assignment of an object literal, hands the literal to the JSON
  translator, and splices the translation back with `str_replace`
  (module `JsTranslator`).

Module `Php` models the part of the PHP runtime these functions lean on:
- dynamically typed values and ordered arrays;
- `empty()`;
- `$a[$k]`, `$a[$k] = $v` and `$a[] = $v`;
- `trim`, `preg_quote` and `str_replace`.

Module `Lists` holds the filter-then-append shape shared by the plugin's
`foreach` loops.

The code's loops stay loops. Each loop becomes a `method` with a `while`
loop and invariants, and is proved equal to a specification function. The
properties the plugin promises are proved as lemmas about those functions.

WordPress helpers and plugin functions whose bodies are not part of this
model are fields of records of functions. They are left uninterpreted:
`Env`, `Helpers` and `JsEnv` carry `esc_html`, `wp_kses`, the dictionary
tagging functions, JSON encoding and decoding, language-id validation,
`sanitize_key`, `sanitize_url`, the context filter, `wp_remote_post`,
`wplng_args_setup` and `wplng_translate_json`.

The extraction regex `#(var\s|let\s|window\._)(.*)\s?=\s?(\{.*\});?#Ui` is
modelled by a concrete scanner that follows PCRE's search order for this
pattern:
- the leftmost start position wins;
- the `U` modifier makes every quantifier lazy;
- without the `s` modifier `.` does not match a newline;
- `i` folds the keywords' case.

Because `=` and `{` are not white space, each name length admits at most
one way to match the rest, so the scanner needs no backtracking.

## Model

| member | source | states |
|---|---|---|
| `Php.Trim` | inc/api-key.php:39 | `trim` yields the slice `s[a..b]` of its input such that everything before `a` and from `b` on is strippable and the slice has no strippable character at either end; the result is empty exactly when every character is strippable; a string with no strippable character is returned unchanged |
| `Php.KeyIndex` | inc/api-key.php:113 | the position of a present key is that of its first entry: it holds the key and no earlier entry does |
| `Php.Put` | inc/api-key.php:113 | `$a[$k] = $v`: the key then reads `$v`, every other key reads as before; an existing key keeps its place, its first entry taking the new value with every other entry unchanged; a new key goes to the end |
| `Php.LookupIn` | inc/api-call/translate.php:204 | reading a missing key yields null; a present key reads the value of its first entry |
| `Php.NextIndex` | inc/api-call/translate.php:203 | the key `$a[] = $v` uses is above every integer key of the array and is 0 or one more than an existing key |
| `Php.ArrayKey` | inc/api-key.php:113 | a string used as an array key is stored as an integer key exactly when it is the canonical decimal form of a 64-bit integer, and then under that integer; an empty string, one starting with neither a digit nor '-', and one with a leading zero are string keys holding the string |
| `Php.ArrayKeyOfIntString` | inc/api-key.php:113 | the decimal form of any 64-bit integer is stored under that integer |
| `Php.ArrayKeyInjective` | inc/api-key.php:113 | two different strings are never stored under the same key |
| `Php.IntStringOfCanonical` | inc/api-key.php:113 | printing the value of a canonical decimal string gives that string back |
| `Php.NatStringOfDigits` | inc/api-key.php:113 | the same for a canonical string of digits with no sign |
| `Php.AppendToList` | inc/api-call/translate.php:203 | appending to a list `0..n-1` gives the list extended by the new value at key `n` |
| `Php.IndexOf` | inc/translator/js.php:45-49 | the leftmost occurrence of a non-empty string; none means it occurs nowhere |
| `Php.ReplaceFromWithout` | inc/translator/js.php:45-49 | `str_replace` keeps the rest of the subject when the search string does not occur in it |
| `Php.ReplaceFromAtFirst` | inc/translator/js.php:45-49 | from any position, `str_replace` keeps the text up to the first occurrence verbatim, replaces that occurrence, and continues after it |
| `Php.StrReplaceByFirstOccurrence` | inc/translator/js.php:45-49 | `str_replace` without an occurrence returns the subject; otherwise the text before the leftmost occurrence is kept, that occurrence is replaced, and the rest is processed the same way (non-overlapping, left to right) |
| `Php.ReplaceFromLength` | inc/translator/js.php:45-49 | the result does not shrink (does not grow) when the replacement is at least as long as (at most as long as) the search string |
| `Php.StrReplace` | inc/translator/js.php:45-49 | `str_replace` with an empty search string, or one that does not occur, returns the subject; a replacement as long as the search string keeps the length |
| `Php.StrReplaceChanges` | inc/translator/js.php:44-49 | replacing a string that occurs by a different string changes the subject |
| `Php.StrReplaceSplice` | inc/translator/js.php:44-49 | when the search string occurs at a known place, the leftmost occurrence is at or before it, the prefix before it is kept, it becomes the replacement, and the subject changes |
| `ApiKey.PregQuote` | inc/api-key.php:22 | `preg_quote` at most quadruples the length (`\0` becomes `\000`) and keeps every character of the input other than `\0` |
| `ApiKey.PregQuoteLength` | inc/api-key.php:22 | `preg_quote` never shortens a string and lengthens any string holding a special character |
| `ApiKey.PregQuoteIdentity` | inc/api-key.php:22 | `preg_quote($s) === $s` exactly when `$s` holds no regex special character |
| `ApiKey.PregMatchKeyPattern` | inc/api-key.php:17-23 | `preg_match` with the key pattern returns 1 exactly when the string is 42 characters of `[a-zA-Z1-9]` (optionally followed by a newline, which `$` allows), 0 otherwise, and never false |
| `ApiKey.IsValidApiKeyFormat` | inc/api-key.php:15-29 | a key is accepted exactly when it is a non-empty string that is not "0" and holds no character `preg_quote` escapes; the 42-character rule plays no part |
| `ApiKey.ShortKeyAccepted` | inc/api-key.php:17-28 | "abc" does not match the pattern yet is accepted |
| `ApiKey.IntendedKeyShape` | inc/api-key.php:17-28 | under the corrected check a key is accepted only if it matches the pattern, every such key is also accepted as written, and every 42-character match is accepted |
| `ApiKey.GetApiKey` | inc/api-key.php:37-46 | the key is '' or the trimmed option value that passes the format check; it is non-empty exactly when the trimmed value is non-empty, not "0" and free of special characters; a non-empty key starts and ends with a non-strippable character |
| `ApiKey.PassesCheck` | inc/api-key.php:71-81 | data that passes the shape check is an array with the keys `language_original`, `languages_target`, `features` and `status` present |
| `ApiKey.SanitizeLanguagesTarget` | inc/api-key.php:87-96 | the loop builds the sanitised target list `SanitizedTargets` |
| `ApiKey.SanitizedTargetsKeepValidIds` | inc/api-key.php:87-96 | the sanitised targets are `sanitize_key` of exactly the valid input ids, one per valid id, in input order |
| `ApiKey.SanitizeFeatures` | inc/api-key.php:102-114 | the loop builds the sanitised features array `SanitizedFeatures` |
| `ApiKey.SanitizedFeaturesShape` | inc/api-key.php:104-113 | every sanitised feature holds a boolean flag and is stored under the PHP array key of the `sanitize_key` of some input entry with a string key and a boolean value (an integer key when that name is a canonical integer) |
| `ApiKey.SanitizedFeaturesKeys` | inc/api-key.php:104-113 | reading the array key of a name finds a flag exactly when some input entry with a string key and a boolean value sanitises to it |
| `ApiKey.SanitizedFeaturesLastWins` | inc/api-key.php:110-113 | the array key of a sanitised name carries the flag of the last input entry that sanitises to it |
| `ApiKey.SanitizeStatus` | inc/api-key.php:120-126 | the status is FREE, PREMIUM or VIP; only the exact strings "PREMIUM" and "VIP" survive, anything else becomes FREE |
| `ApiKey.SanitizeExpiration` | inc/api-key.php:143-147 | the expiration is present exactly when the input is a non-empty string, and is then that string |
| `ApiKey.GetApiData` | inc/api-key.php:57-168 | no key gives the empty result; data failing the shape check goes to revalidation; otherwise the result holds the sanitised original language, targets, features, status and expiration |
| `ApiKey.GetApiLanguagesTarget` | inc/api-key.php:199-233 | empty targets give false, 'all' gives 'all', any other non-array gives false, and an array gives the ids of the master list that qualify, in master-list order |
| `ApiKey.HasTarget` | inc/api-key.php:213-224 | the inner loop answers true exactly when some data target is a valid id equal to the master entry's non-empty id |
| `ApiKey.OrderedTargetsFollowMaster` | inc/api-key.php:212-227 | every returned id is non-empty, valid and one of the data's targets; the ids come from strictly increasing master-list positions, at most one per master entry; and every master entry whose id qualifies contributes it |
| `ApiKey.GetApiFeature` | inc/api-key.php:242-257 | the loop builds `EnabledFeatures`: the names 'search' or 'commercial' whose flag is truthy, in the data's order |
| `ApiKey.EnabledFeatures` | inc/api-key.php:242-257 | there are at most as many enabled features as entries in the features array, and each is 'search' or 'commercial' |
| `ApiKey.EnabledFeaturesAreKnown` | inc/api-key.php:248-253 | every enabled feature is 'search' or 'commercial' and has a truthy flag in the data |
| `ApiKey.FeatureIsAllowed` | inc/api-key.php:266-268 | only 'search' and 'commercial' can be allowed |
| `ApiKey.FeatureIsAllowedIff` | inc/api-key.php:266-268 | a feature is allowed exactly when it is 'search' or 'commercial' and the data holds it with a truthy flag |
| `TranslateApi.SanitizedTexts` | inc/api-call/translate.php:61-67 | the sanitised texts keep every key in its place, every value becomes a string: `esc_html` of a string, '' for anything else |
| `TranslateApi.SanitizeTexts` | inc/api-call/translate.php:61-67 | the in-place loop yields `SanitizedTexts` |
| `TranslateApi.ResolveId` | inc/api-call/translate.php:79-89 | an empty language id takes the default; a non-empty one is kept exactly when it is a valid id, and the gateway gives up otherwise |
| `TranslateApi.TaggedJson` | inc/api-call/translate.php:95-110 | the JSON sent is the encoding of the tagged texts, and the gateway gives up when that encoding fails or is empty |
| `TranslateApi.BuildContext` | inc/api-call/translate.php:116-133 | the context is the sanitised referer in an AJAX request with a non-empty referer, otherwise the sanitised page URL when HTTPS, host and URI are set, otherwise 'UNKNOW', always passed through the context filter |
| `TranslateApi.ComposeRequest` | inc/api-call/translate.php:71-147 | a request is composed exactly when there is an API key, both language ids resolve, and the tagged JSON is non-empty; its body is exactly request 'translate', the key, the API version, the context, the source and target ids (an empty id takes the website or current language) and the JSON |
| `TranslateApi.ResponseTranslations` | inc/api-call/translate.php:177-183 | the translations are used exactly when the response has no error and its translations are a non-empty array; their number is not compared with the number of texts |
| `TranslateApi.ResponseTranslationsIntended` | inc/api-call/translate.php:177-183 | the corrected check accepts exactly what the check as written accepts with one translation per text |
| `TranslateApi.CollectStep` | inc/api-call/translate.php:201-206 | one step of the loop: after a fatal error nothing is returned; a string item appends its `wp_kses` image at the next integer key; any other item leaves the list or replaces it by the text under the item's key |
| `TranslateApi.Collected` | inc/api-call/translate.php:199-209 | whatever the loop returns is an array or the text under the key of one of the non-string items |
| `TranslateApi.FatalIsFinal` | inc/api-call/translate.php:201-207 | once a step of the loop is fatal, the whole loop is |
| `TranslateApi.CollectTranslations` | inc/api-call/translate.php:199-209 | the loop yields `Collected`, including the reassignment at line 205 and the fatal error of `[]` on a string |
| `TranslateApi.CollectStrings` | inc/api-call/translate.php:199-209 | when every untagged item is a string, the result is the list of their `wp_kses` images in response order, as long as the response |
| `TranslateApi.ClobberedByNonString` | inc/api-call/translate.php:201-206 | as written, a non-string item after a translation replaces the whole list by one text, and a translation after a non-string item is a fatal error |
| `TranslateApi.ClobberedStaysScalar` | inc/api-call/translate.php:201-206 | as written, once a non-string item has replaced the list by its text, the loop holds a fatal error or a non-array until the next string item, as long as the non-string items in between bring no array in |
| `TranslateApi.TranslationAfterClobberIsFatal` | inc/api-call/translate.php:201-206 | as written, for every response: a string item after a non-string item whose key holds a text, with only such non-string items between them, makes the loop a fatal error |
| `TranslateApi.ClobberIsFinal` | inc/api-call/translate.php:201-209 | as written, for every response: a non-string item whose key holds a text, reached while the loop still runs and followed only by non-string items without a text, makes the result that one text, and the list built so far is lost |
| `TranslateApi.CollectedIntendedPositional` | inc/api-call/translate.php:199-209 | the corrected loop yields a list whose entry k translates item k when every item is a string or has its text |
| `TranslateApi.CollectedIntendedAgrees` | inc/api-call/translate.php:199-209 | on a response of strings only, the corrected loop and the loop as written agree |
| `TranslateApi.CountNotCompared` | inc/api-call/translate.php:177-183 | as written, one translation for two texts passes the response check and one translation is returned; the corrected check refuses it |
| `TranslateApi.IntendedCountMatches` | inc/api-call/translate.php:177-209 | when the corrected check accepts a response for `count` texts and the accepted translations are all strings, the corrected loop over them returns exactly `count` entries |
| `TranslateApi.Translate` | inc/api-call/translate.php:45-210 | an empty or non-array input gives the empty array and no request; a failed guard gives the sanitised texts and no request; a request is sent exactly when every guard passes, with the body above; a transport error or a status other than 200, or a response without usable translations, gives the sanitised texts; otherwise the result is the post-processing loop over the untagged translations |
| `JsTranslator.PrefixLength` | inc/translator/js.php:25 | the first group matches 4 characters (`var`/`let` and a white-space character) or 8 (`window._`), or does not match |
| `JsTranslator.CloseBrace` | inc/translator/js.php:25 | the lazy `.*\}` ends at a `}` at or after the start |
| `JsTranslator.CloseBraceFirst` | inc/translator/js.php:25 | that `}` is the first one, and no newline comes before it |
| `JsTranslator.TailAtLiteral` | inc/translator/js.php:25 | between the braces of the captured literal there is no `}` and no newline |
| `JsTranslator.ScanName` | inc/translator/js.php:25 | the lazy name ends where the tail `\s?=\s?{...}` matches |
| `JsTranslator.ScanNameShortest` | inc/translator/js.php:25 | the name holds no newline and is the shortest one the tail follows |
| `JsTranslator.MatchAt` | inc/translator/js.php:25 | a match at a position starts its name right after the keyword, and the name ends before the literal, which lies inside the script |
| `JsTranslator.NoneInEach` | inc/translator/js.php:24-28 | no attempt succeeds at any position of a range in which the search found none |
| `JsTranslator.FirstFrom` | inc/translator/js.php:24-28 | the search returns a match at or after its start, and no match starts before it |
| `JsTranslator.MatchLiteralShape` | inc/translator/js.php:25-33 | the captured literal is the slice of the script at its position, begins with `{`, ends with the first `}` after it, and holds no newline |
| `JsTranslator.MatchNameShape` | inc/translator/js.php:25-32 | the captured name is the slice right after the keyword, holds no newline, and is the shortest one the tail follows |
| `JsTranslator.FirstMatchShape` | inc/translator/js.php:24-33 | the first match's captures are slices of the script, the literal begins with `{` and ends with `}`, no match starts earlier, and without a first match no match starts anywhere |
| `JsTranslator.LiteralOccurs` | inc/translator/js.php:33 | the first match's literal is non-empty and occurs in the script where it was captured |
| `JsTranslator.JsonArgs` | inc/translator/js.php:35-37 | the translator's arguments are the set-up arguments with `parents` set to the list of the variable name, every other key unchanged |
| `JsTranslator.BlankScriptUnchanged` | inc/translator/js.php:18-20 | a script whose trim is '' or '0' is returned unchanged |
| `JsTranslator.NoMatchUnchanged` | inc/translator/js.php:30-53 | without a match, or with an empty captured name, the script is returned unchanged |
| `JsTranslator.SameLiteralUnchanged` | inc/translator/js.php:44-53 | when the translator hands back the literal, the script is returned unchanged |
| `JsTranslator.TranslatedLiteralReplaced` | inc/translator/js.php:32-49 | otherwise the result is `str_replace` of the first match's literal, which occurs where it was captured, by the translator's output for that literal with `parents` set to the first match's name |
| `JsTranslator.TranslateJs` | inc/translator/js.php:16-54 | a script comes back changed only when there is a first match with a non-empty name, and it is then `str_replace` of that match's literal by the translator's output for it |
| `JsTranslator.TranslatedLiteralChanges` | inc/translator/js.php:44-49 | when the translator hands back a different literal, the script changes |

## Left out

- Floats and objects are not among the modelled PHP values. Keys of input arrays are taken to be normalised already: a numeric string key is an integer key. Keys the plugin builds from strings (`$features[ $key ]`) go through `Php.ArrayKey`, PHP's string-to-key rule on a 64-bit platform.
- PHP's loose comparisons are fixed to their PHP 8 outcomes where the plugin uses them. `in_array` never equals an integer key to 'search' or 'commercial'. `!= 200` compares an integer status.
- Strings are sequences of characters. The byte semantics of `trim`, `str_replace` and PCRE without the `u` modifier are not modelled.
- I/O and globals become parameters:
  - `wp_remote_post` becomes `Env.post`, which receives only the body; the URL, timeout and `sslverify` arguments are not modelled.
  - `$_SERVER` and `DOING_AJAX` become `ServerInfo`.
  - `apply_filters` becomes `Env.contextFilter`.
  - `WPLNG_API_VERSION` becomes `Env.apiVersion`.
  - `wplng_get_language_current_id()` and `wplng_get_language_website_id()` become the fields `Env.currentLanguageId` and `Env.websiteLanguageId`.
  - `get_option('wplng_api_key')` becomes a string parameter; a missing option counts as ''.
  - `get_transient` and `json_decode` of the cached key data become an already decoded value.
  - `wplng_get_languages_all()` becomes a value parameter.
- The revalidation branch of `wplng_get_api_data` is not modelled; `ApiDataResult.Revalidate` only marks where it starts. That branch covers `wplng_api_call_validate_api_key()`, `set_transient` and the empty result of a failed revalidation. It is network and storage.
- The views `GetApiLanguagesTarget` and `GetApiFeature` take the API data as a parameter instead of calling `wplng_get_api_data()`.
- The bodies of the collaborators are not part of this model. They are uninterpreted function fields:
  - `esc_html`, `wp_kses`, `sanitize_key` and `sanitize_url`;
  - the dictionary tagging functions, with their dictionary entries already bound;
  - `wp_json_encode` and `json_decode`;
  - `wplng_is_valid_language_id(s)`;
  - `wplng_args_setup`, taken to fill `$args` with the entries of an array;
  - `wplng_translate_json`.
- JsTranslator.CloseBrace: the contract states where the `}` found lies, not that "no result" means no `}` before the next newline or the end.
- JsTranslator.TranslateJs: the error path of `preg_match_all` is not modelled. PCRE gives up with `false` once it hits `pcre.backtrack_limit` or the JIT stack limit, for instance on a long minified line where many `var `/`let ` starts fail; `$json[2][0]` is then missing and the script comes back unchanged. The model always finds the mathematical first match (`JsTranslator.FirstMatch`) and translates it.
- Only the first match of `preg_match_all` is modelled, since the plugin reads no later match.
- The scanner runs from the leftmost position on. An object literal that nests another object ends at the first `}`, as the lazy pattern makes it end.
- TranslateApi.SanitizeTexts: the loop rewrites the entries by position. That equals PHP's `$texts[$key] = ...` because a PHP array holds each key once; the value model does not enforce distinct keys.
- TranslateApi.IntendedCountMatches: speaks of the translations the corrected check accepts, not of the untagged ones the loop receives in `Translate`; the untagging functions are uninterpreted, so nothing ties their number to the response's.
- TranslateApi.Translate: follows the code as written at lines 177-183 and 205; the corrected definitions are beside it (see Findings).

## Findings

| source | as written | input that shows it | evidently intended | confidence | as-written member | corrected member |
|---|---|---|---|---|---|---|
| inc/api-key.php:23 | the format check rejects only when `preg_match` returns `false` (an error), so a non-match (`0`) passes and the 42-character rule is not enforced | the key "abc" | reject unless the pattern matches (`1 !== preg_match(...)`) | not executed | `ApiKey.ShortKeyAccepted` | `ApiKey.IntendedKeyShape` |
| inc/api-call/translate.php:205 | `$translations = $texts[$key]` replaces the accumulated list by one text; a later string translation then applies `[]` to a string, which is a fatal error | translations `["x", 7]` for texts `["a", "b"]` give "b"; `[7, "y"]` is fatal | `$translations[] = $texts[$key]`, keeping the original text at its place | not executed | `TranslateApi.ClobberedByNonString` | `TranslateApi.CollectedIntendedPositional` |
| inc/api-call/translate.php:177-183 | the response check never compares the number of translations with the number of texts, so a short response goes through | one translation `["x"]` for texts `["a", "b"]` | also refuse a response whose translation count differs from the text count | not executed | `TranslateApi.CountNotCompared` | `TranslateApi.IntendedCountMatches` |
