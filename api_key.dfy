/**
 * The API key and the cached API key data (inc/api-key.php): the key format
 * predicate, reading the registered key, sanitising the cached key data, and
 * the two views of it the rest of the plugin asks for (the target languages
 * in master-list order, and the enabled features).
 */
module ApiKey {
  import opened Php
  import opened Lists

  /* ---------------------------------------------------------------------
   * Key format
   * ------------------------------------------------------------------- */

  /** The characters `preg_quote()` puts a backslash before:
      . \ + * ? [ ^ ] $ ( ) { } = ! < > | : - # (NUL becomes "\000"). */
  predicate IsRegexSpecial(c: char)
  {
    || c == '.' || c == '\\' || c == '+' || c == '*' || c == '?' || c == '['
    || c == '^' || c == ']' || c == '$' || c == '(' || c == ')' || c == '{'
    || c == '}' || c == '=' || c == '!' || c == '<' || c == '>' || c == '|'
    || c == ':' || c == '-' || c == '#' || c == '\0'
  }

  /** `preg_quote($s)` without a delimiter argument: at most four characters
      per input character, and every character other than NUL survives. */
  function PregQuote(s: string): (r: string)
    ensures |r| <= 4 * |s|
    ensures forall c :: c in s && c != '\0' ==> c in r
  {
    if s == [] then []
    else
      (if s[0] == '\0' then "\\000" else if IsRegexSpecial(s[0]) then ['\\', s[0]] else [s[0]])
      + PregQuote(s[1..])
  }

  lemma {:induction false} PregQuoteLength(s: string)
    ensures |PregQuote(s)| >= |s|
    ensures (exists i :: 0 <= i < |s| && IsRegexSpecial(s[i])) ==> |PregQuote(s)| > |s|
  {
    if s != [] {
      PregQuoteLength(s[1..]);
      if exists i :: 0 <= i < |s| && IsRegexSpecial(s[i]) {
        var i :| 0 <= i < |s| && IsRegexSpecial(s[i]);
        if !IsRegexSpecial(s[0]) {
          assert IsRegexSpecial(s[1..][i - 1]);
        }
      }
    }
  }

  /** `preg_quote` leaves a string alone exactly when it holds no special
      character. */
  lemma {:induction false} PregQuoteIdentity(s: string)
    ensures PregQuote(s) == s <==> forall i :: 0 <= i < |s| ==> !IsRegexSpecial(s[i])
  {
    PregQuoteLength(s);
    if s != [] && forall i :: 0 <= i < |s| ==> !IsRegexSpecial(s[i]) {
      assert forall i :: 0 <= i < |s[1..]| ==> !IsRegexSpecial(s[1..][i]) by {
        forall i | 0 <= i < |s[1..]| ensures !IsRegexSpecial(s[1..][i]) {
          assert s[1..][i] == s[i + 1];
        }
      }
      PregQuoteIdentity(s[1..]);
    }
  }

  /** A character of `[a-zA-Z1-9]` (there is no 0). */
  predicate IsKeyChar(c: char)
  {
    'a' <= c <= 'z' || 'A' <= c <= 'Z' || '1' <= c <= '9'
  }

  /** Whether `/^[a-zA-Z1-9]{42}$/s` matches `s`: 42 key characters, and
      since `$` also matches before a final newline, optionally a "\n". */
  predicate MatchesKeyPattern(s: string)
  {
    (|s| == 42 || (|s| == 43 && s[42] == '\n'))
    && forall i :: 0 <= i < 42 ==> IsKeyChar(s[i])
  }

  /** What `preg_match` returns: a match count, or `false` on an error. */
  datatype PregResult = PregCount(count: nat) | PregError

  /** `preg_match` with the key pattern. The pattern is fixed and valid, has
      no `u` modifier (so no UTF-8 check) and cannot backtrack
      catastrophically, so it never yields `false`. */
  function PregMatchKeyPattern(s: string): (r: PregResult)
    ensures r == PregCount(1) <==> MatchesKeyPattern(s)
    ensures r == PregCount(0) <==> !MatchesKeyPattern(s)
  {
    PregCount(if MatchesKeyPattern(s) then 1 else 0)
  }

  /** `wplng_is_valid_api_key_format`, as written: rejects an empty value, a
      non-string, a string `preg_quote` would change, and a `false` from
      `preg_match`, which never happens. */
  function IsValidApiKeyFormat(key: Value): (ok: bool)
    ensures ok <==> (key.Str? && !EmptyString(key.s)
                     && forall i :: 0 <= i < |key.s| ==> !IsRegexSpecial(key.s[i]))
  {
    if Empty(key) || !key.Str? then false
    else
      PregQuoteIdentity(key.s);
      !(key.s != PregQuote(key.s) || PregMatchKeyPattern(key.s) == PregError)
  }

  /** The 42-character rule is not enforced: a three-letter key passes
      although the pattern does not match it. */
  lemma ShortKeyAccepted()
    ensures IsValidApiKeyFormat(Str("abc"))
    ensures PregMatchKeyPattern("abc") == PregCount(0)
  {
    assert forall i :: 0 <= i < |"abc"| ==> !IsRegexSpecial("abc"[i]) by {
      assert "abc"[0] == 'a' && "abc"[1] == 'b' && "abc"[2] == 'c';
    }
  }

  /** The check as evidently intended: the pattern must actually match. */
  function IsValidApiKeyFormatIntended(key: Value): bool
  {
    !(Empty(key) || !key.Str? || key.s != PregQuote(key.s)
      || PregMatchKeyPattern(key.s) != PregCount(1))
  }

  /** An intended-valid key is 42 characters of `[a-zA-Z1-9]` (possibly with a
      final newline, which `trim` removes before the check), and every such
      key is also accepted as written. */
  lemma IntendedKeyShape(key: Value)
    ensures IsValidApiKeyFormatIntended(key) ==>
      key.Str? && MatchesKeyPattern(key.s) && IsValidApiKeyFormat(key)
    ensures key.Str? && MatchesKeyPattern(key.s) && |key.s| == 42 ==> IsValidApiKeyFormatIntended(key)
  {
    if key.Str? {
      PregQuoteIdentity(key.s);
      if MatchesKeyPattern(key.s) {
        assert !EmptyString(key.s) by { assert |key.s| >= 42; }
        forall i | 0 <= i < |key.s| ensures !IsRegexSpecial(key.s[i]) {
          if i < 42 {
            assert IsKeyChar(key.s[i]);
          }
        }
      }
    }
  }

  /** `wplng_get_api_key`: the trimmed option value when its format is
      accepted, '' otherwise. A missing option reads as '' (`trim(false)`). */
  function GetApiKey(stored: string): (key: string)
    ensures key == "" || (key == Trim(stored) && IsValidApiKeyFormat(Str(key)))
    ensures key != "" <==> (!EmptyString(Trim(stored))
                            && forall i :: 0 <= i < |Trim(stored)| ==> !IsRegexSpecial(Trim(stored)[i]))
    ensures key != "" ==> key != "0" && !IsTrimmable(key[0]) && !IsTrimmable(key[|key| - 1])
  {
    var key := Trim(stored);
    if !IsValidApiKeyFormat(Str(key)) then "" else key
  }

  /* ---------------------------------------------------------------------
   * Sanitising the cached API key data
   * ------------------------------------------------------------------- */

  /** The WordPress and plugin helpers the checks call; their bodies are not
      part of this model. */
  datatype Helpers = Helpers(
    isValidLanguageId: Value -> bool,   // wplng_is_valid_language_id
    isValidLanguageIds: Value -> bool,  // wplng_is_valid_language_ids
    sanitizeKey: Value -> string)       // sanitize_key

  /** The checked API data (`$data_checked`). */
  datatype ApiData = ApiData(
    languageOriginal: string,
    languagesTarget: seq<string>,
    features: seq<(Key, Value)>,
    status: string,
    expiration: Option<string>)

  /** The three outcomes of `wplng_get_api_data`: no key (an empty array),
      the checked cached data, or a cache that fails the check, in which case
      the source asks the API again (`wplng_api_call_validate_api_key`, not
      part of this model). */
  datatype ApiDataResult = NoApiKey | Checked(data: ApiData) | Revalidate

  /** The shape test the cached data must pass before it is sanitised. Data
      that passes is an array holding the original language, the target
      languages, the features and the status. */
  predicate PassesCheck(data: Value, h: Helpers)
    ensures PassesCheck(data, h) ==>
      && data.Arr?
      && HasKey(data.entries, StrKey("language_original"))
      && HasKey(data.entries, StrKey("languages_target"))
      && HasKey(data.entries, StrKey("features"))
      && HasKey(data.entries, StrKey("status"))
  {
    var original := Lookup(data, StrKey("language_original"));
    var targets := Lookup(data, StrKey("languages_target"));
    var features := Lookup(data, StrKey("features"));
    && !Empty(original)
    && (h.isValidLanguageId(original) || original == Str("all"))
    && !Empty(targets)
    && h.isValidLanguageIds(targets)
    && features != Null && features.Arr?
    && !Empty(Lookup(data, StrKey("status")))
  }

  function KeepValidId(h: Helpers): ((Key, Value)) -> bool
  {
    (e: (Key, Value)) => h.isValidLanguageId(e.1)
  }

  function SanitizedId(h: Helpers): ((Key, Value)) -> string
  {
    (e: (Key, Value)) => h.sanitizeKey(e.1)
  }

  /** The sanitised target languages: the valid ids, sanitised, in input
      order. */
  function SanitizedTargets(ids: seq<(Key, Value)>, h: Helpers): seq<string>
  {
    FilterMap(ids, KeepValidId(h), SanitizedId(h))
  }

  /** The target-language loop of `wplng_get_api_data`. */
  method SanitizeLanguagesTarget(ids: seq<(Key, Value)>, h: Helpers) returns (targets: seq<string>)
    ensures targets == SanitizedTargets(ids, h)
  {
    targets := [];
    var i := 0;
    while i < |ids|
      invariant 0 <= i <= |ids|
      invariant targets == FilterMap(ids[..i], KeepValidId(h), SanitizedId(h))
    {
      FilterMapStep(ids, i, KeepValidId(h), SanitizedId(h));
      var id := ids[i].1;
      if !h.isValidLanguageId(id) {
        i := i + 1;
        continue;
      }
      targets := targets + [h.sanitizeKey(id)];
      i := i + 1;
    }
    assert ids[..|ids|] == ids;
  }

  /** The sanitised target languages hold exactly the valid input ids, each
      sanitised, in input order. */
  lemma SanitizedTargetsKeepValidIds(ids: seq<(Key, Value)>, h: Helpers) returns (pos: seq<nat>)
    ensures |pos| == |SanitizedTargets(ids, h)|
    ensures forall k :: 0 <= k < |pos| ==>
      (pos[k] < |ids|
       && h.isValidLanguageId(ids[pos[k]].1)
       && SanitizedTargets(ids, h)[k] == h.sanitizeKey(ids[pos[k]].1))
    ensures forall k, l :: 0 <= k < l < |pos| ==> pos[k] < pos[l]
    ensures forall i :: 0 <= i < |ids| && h.isValidLanguageId(ids[i].1) ==> i in pos
  {
    pos := FilterMapPositions(ids, KeepValidId(h), SanitizedId(h));
  }

  /** An entry of the features list that the sanitiser keeps. */
  predicate IsFeatureFlag(e: (Key, Value))
  {
    e.0.StrKey? && e.1.Bool?
  }

  function FeatureKey(e: (Key, Value), h: Helpers): string
    requires IsFeatureFlag(e)
  {
    h.sanitizeKey(Str(e.0.s))
  }

  /** The sanitised features array, built the way the loop builds it. */
  function SanitizedFeatures(features: seq<(Key, Value)>, h: Helpers): seq<(Key, Value)>
  {
    if features == [] then []
    else
      var previous := SanitizedFeatures(features[..|features| - 1], h);
      var last := features[|features| - 1];
      if IsFeatureFlag(last) then Put(previous, ArrayKey(FeatureKey(last, h)), Bool(last.1.b))
      else previous
  }

  /** The features loop of `wplng_get_api_data`. */
  method SanitizeFeatures(features: seq<(Key, Value)>, h: Helpers) returns (checked: seq<(Key, Value)>)
    ensures checked == SanitizedFeatures(features, h)
  {
    checked := [];
    var i := 0;
    while i < |features|
      invariant 0 <= i <= |features|
      invariant checked == SanitizedFeatures(features[..i], h)
    {
      assert features[..i + 1][..i] == features[..i];
      var key := features[i].0;
      var allow := features[i].1;
      if !key.StrKey? || !allow.Bool? {
        i := i + 1;
        continue;
      }
      var name := h.sanitizeKey(Str(key.s));
      var flag := allow == Bool(true);
      checked := Put(checked, ArrayKey(name), Bool(flag));
      i := i + 1;
    }
    assert features[..|features|] == features;
  }

  /** `e` is stored under the array key of the sanitised name of some kept
      entry of `features`, with a boolean flag. */
  predicate StoredFrom(e: (Key, Value), features: seq<(Key, Value)>, h: Helpers)
  {
    && e.1.Bool?
    && exists i :: 0 <= i < |features| && IsFeatureFlag(features[i]) && e.0 == ArrayKey(FeatureKey(features[i], h))
  }

  /** Every sanitised feature is stored under the array key of the
      sanitised name of some kept input entry, with a boolean flag. */
  lemma {:induction false} SanitizedFeaturesShape(features: seq<(Key, Value)>, h: Helpers)
    ensures forall j :: 0 <= j < |SanitizedFeatures(features, h)| ==>
      StoredFrom(SanitizedFeatures(features, h)[j], features, h)
  {
    if features != [] {
      var n := |features| - 1;
      var init := features[..n];
      var last := features[n];
      SanitizedFeaturesShape(init, h);
      var r0 := SanitizedFeatures(init, h);
      var r := SanitizedFeatures(features, h);
      forall j | 0 <= j < |r| ensures StoredFrom(r[j], features, h) {
        if IsFeatureFlag(last) && r[j] == (ArrayKey(FeatureKey(last, h)), Bool(last.1.b)) {
          assert features[n] == last;
        } else {
          assert r[j] in r0 by {
            if IsFeatureFlag(last) {
              assert r == Put(r0, ArrayKey(FeatureKey(last, h)), Bool(last.1.b));
            } else {
              assert r == r0;
            }
          }
          var m :| 0 <= m < |r0| && r0[m] == r[j];
          assert StoredFrom(r0[m], init, h);
          var i :| 0 <= i < |init| && IsFeatureFlag(init[i]) && r0[m].0 == ArrayKey(FeatureKey(init[i], h));
          assert features[i] == init[i];
        }
      }
    }
  }

  /** One more input entry: its sanitised name reads its flag, and every
      other key reads as before. */
  lemma SanitizedFeaturesLookupStep(features: seq<(Key, Value)>, h: Helpers, key: Key)
    requires features != []
    ensures var n := |features| - 1;
      var last := features[n];
      if IsFeatureFlag(last) && key == ArrayKey(FeatureKey(last, h))
      then LookupIn(SanitizedFeatures(features, h), key) == Bool(last.1.b)
      else LookupIn(SanitizedFeatures(features, h), key) == LookupIn(SanitizedFeatures(features[..n], h), key)
  {
  }

  /** A name is present in the sanitised features exactly when some input
      entry with a string key and a boolean value sanitises to it. */
  lemma {:induction false} SanitizedFeaturesKeys(features: seq<(Key, Value)>, h: Helpers, name: string)
    ensures LookupIn(SanitizedFeatures(features, h), ArrayKey(name)) != Null <==>
      exists i :: 0 <= i < |features| && IsFeatureFlag(features[i]) && FeatureKey(features[i], h) == name
  {
    if features != [] {
      var n := |features| - 1;
      var init := features[..n];
      var last := features[n];
      var here := IsFeatureFlag(last) && FeatureKey(last, h) == name;
      assert LookupIn(SanitizedFeatures(features, h), ArrayKey(name)) != Null <==>
        here || LookupIn(SanitizedFeatures(init, h), ArrayKey(name)) != Null by {
        SanitizedFeaturesLookupStep(features, h, ArrayKey(name));
        if IsFeatureFlag(last) {
          ArrayKeyInjective(FeatureKey(last, h), name);
        }
      }
      assert (exists i :: 0 <= i < |features| && IsFeatureFlag(features[i]) && FeatureKey(features[i], h) == name)
        <==> here || exists i :: 0 <= i < |init| && IsFeatureFlag(init[i]) && FeatureKey(init[i], h) == name by {
        if exists i :: 0 <= i < |features| && IsFeatureFlag(features[i]) && FeatureKey(features[i], h) == name {
          var i :| 0 <= i < |features| && IsFeatureFlag(features[i]) && FeatureKey(features[i], h) == name;
          if i < n {
            assert init[i] == features[i];
            assert IsFeatureFlag(init[i]) && FeatureKey(init[i], h) == name;
          } else {
            assert i == n && features[i] == last;
            assert here;
          }
        }
        if exists i :: 0 <= i < |init| && IsFeatureFlag(init[i]) && FeatureKey(init[i], h) == name {
          var i :| 0 <= i < |init| && IsFeatureFlag(init[i]) && FeatureKey(init[i], h) == name;
          assert init[i] == features[i];
          assert IsFeatureFlag(features[i]) && FeatureKey(features[i], h) == name;
        }
        if here {
          assert features[n] == last;
          assert IsFeatureFlag(features[n]) && FeatureKey(features[n], h) == name;
        }
      }
      SanitizedFeaturesKeys(init, h, name);
    }
  }

  /** A sanitised name carries the flag of the last input entry that
      sanitises to it. */
  lemma {:induction false} SanitizedFeaturesLastWins(features: seq<(Key, Value)>, h: Helpers, i: nat)
    requires i < |features| && IsFeatureFlag(features[i])
    requires forall j :: i < j < |features| && IsFeatureFlag(features[j]) ==>
      FeatureKey(features[j], h) != FeatureKey(features[i], h)
    ensures LookupIn(SanitizedFeatures(features, h), ArrayKey(FeatureKey(features[i], h))) == features[i].1
  {
    var n := |features| - 1;
    var init := features[..n];
    var last := features[n];
    var key := ArrayKey(FeatureKey(features[i], h));
    SanitizedFeaturesLookupStep(features, h, key);
    if i < n {
      assert init[i] == features[i];
      forall j | i < j < |init| && IsFeatureFlag(init[j])
        ensures FeatureKey(init[j], h) != FeatureKey(init[i], h)
      {
        assert init[j] == features[j];
      }
      SanitizedFeaturesLastWins(init, h, i);
      if IsFeatureFlag(last) {
        assert FeatureKey(last, h) != FeatureKey(features[i], h);
        ArrayKeyInjective(FeatureKey(last, h), FeatureKey(features[i], h));
      }
    }
  }

  /** The sanitised status is FREE, PREMIUM or VIP; anything but the exact
      strings "PREMIUM" and "VIP" becomes FREE. */
  function SanitizeStatus(status: Value): (s: string)
    ensures s == "FREE" || s == "PREMIUM" || s == "VIP"
    ensures s != "FREE" ==> status == Str(s)
    ensures status == Str("PREMIUM") || status == Str("VIP") ==> status == Str(s)
  {
    if status == Str("PREMIUM") || status == Str("VIP") then status.s else "FREE"
  }

  /** The expiration is kept only when it is a non-empty string. */
  function SanitizeExpiration(expiration: Value): (e: Option<string>)
    ensures e.Some? <==> expiration.Str? && !EmptyString(expiration.s)
    ensures e.Some? ==> expiration == Str(e.value)
  {
    if !Empty(expiration) && expiration.Str? then Some(expiration.s) else None
  }

  /** `wplng_get_api_data` over the already decoded cached data. */
  method GetApiData(stored: string, cached: Value, h: Helpers) returns (r: ApiDataResult)
    ensures GetApiKey(stored) == "" ==> r == NoApiKey
    ensures GetApiKey(stored) != "" && !PassesCheck(cached, h) ==> r == Revalidate
    ensures GetApiKey(stored) != "" && PassesCheck(cached, h) ==> r == Checked(ApiData(
      h.sanitizeKey(Lookup(cached, StrKey("language_original"))),
      SanitizedTargets(Entries(Lookup(cached, StrKey("languages_target"))), h),
      SanitizedFeatures(Lookup(cached, StrKey("features")).entries, h),
      SanitizeStatus(Lookup(cached, StrKey("status"))),
      SanitizeExpiration(Lookup(cached, StrKey("expiration")))))
  {
    if EmptyString(GetApiKey(stored)) {
      return NoApiKey;
    }
    if !PassesCheck(cached, h) {
      return Revalidate;
    }
    var targets := SanitizeLanguagesTarget(Entries(Lookup(cached, StrKey("languages_target"))), h);
    var features := SanitizeFeatures(Lookup(cached, StrKey("features")).entries, h);
    var status := "FREE";
    var given := Lookup(cached, StrKey("status"));
    if given == Str("PREMIUM") || given == Str("VIP") {
      status := given.s;
    }
    var checked := ApiData(
      h.sanitizeKey(Lookup(cached, StrKey("language_original"))),
      targets, features, status, None);
    var expiration := Lookup(cached, StrKey("expiration"));
    if !Empty(expiration) && expiration.Str? {
      checked := checked.(expiration := Some(expiration.s));
    }
    r := Checked(checked);
  }

  /* ---------------------------------------------------------------------
   * Views of the API data
   * ------------------------------------------------------------------- */

  /** What `wplng_get_api_languages_target` returns: false, 'all', or a list
      of ids. */
  datatype TargetLanguages = NoTargets | AllTargets | TargetIds(ids: seq<Value>)

  /** A master-list language contributes its id when the id is non-empty,
      valid, and one of the data's target ids. */
  predicate Contributes(language: Value, targets: seq<(Key, Value)>, isValidLanguageId: Value -> bool)
  {
    var id := Lookup(language, StrKey("id"));
    && !Empty(id)
    && isValidLanguageId(id)
    && exists j :: 0 <= j < |targets| && targets[j].1 == id
  }

  function ContributesTo(targets: seq<(Key, Value)>, isValidLanguageId: Value -> bool): ((Key, Value)) -> bool
  {
    (e: (Key, Value)) => Contributes(e.1, targets, isValidLanguageId)
  }

  function LanguageIdOf(): ((Key, Value)) -> Value
  {
    (e: (Key, Value)) => Lookup(e.1, StrKey("id"))
  }

  /** The target ids re-ordered by the master language list. */
  function OrderedTargets(languagesAll: Value, targets: seq<(Key, Value)>, isValidLanguageId: Value -> bool): seq<Value>
  {
    FilterMap(Entries(languagesAll), ContributesTo(targets, isValidLanguageId), LanguageIdOf())
  }

  /** The inner loop of `wplng_get_api_languages_target` for one master
      entry: it breaks at the first target that is a valid id equal to the
      entry's non-empty id, whose value it appends. */
  method HasTarget(language: Value, ids: seq<(Key, Value)>, isValidLanguageId: Value -> bool)
    returns (found: bool)
    ensures found == Contributes(language, ids, isValidLanguageId)
  {
    // `$language['id']`, read once per master entry.
    var id := Lookup(language, StrKey("id"));
    var j := 0;
    while j < |ids|
      invariant 0 <= j <= |ids|
      invariant forall l :: 0 <= l < j ==> !isValidLanguageId(ids[l].1) || Empty(id) || id != ids[l].1
    {
      var languageId := ids[j].1;
      if !isValidLanguageId(languageId) || Empty(id) || id != languageId {
        j := j + 1;
        continue;
      }
      return true;
    }
    return false;
  }

  /** `wplng_get_api_languages_target` over the API data and the master list
      `wplng_get_languages_all()`. */
  method GetApiLanguagesTarget(data: Value, languagesAll: Value, isValidLanguageId: Value -> bool)
    returns (r: TargetLanguages)
    ensures Empty(Lookup(data, StrKey("languages_target"))) ==> r == NoTargets
    ensures Lookup(data, StrKey("languages_target")) == Str("all") ==> r == AllTargets
    ensures var targets := Lookup(data, StrKey("languages_target"));
      !targets.Arr? && targets != Str("all") ==> r == NoTargets
    ensures var targets := Lookup(data, StrKey("languages_target"));
      targets.Arr? && !Empty(targets) ==>
      r == TargetIds(OrderedTargets(languagesAll, targets.entries, isValidLanguageId))
  {
    var targets := Lookup(data, StrKey("languages_target"));
    if Empty(targets) {
      return NoTargets;
    } else if targets == Str("all") {
      return AllTargets;
    } else if targets.Arr? {
      var all := Entries(languagesAll);
      var ids := targets.entries;
      var ordered: seq<Value> := [];
      var i := 0;
      while i < |all|
        invariant 0 <= i <= |all|
        invariant ordered == FilterMap(all[..i], ContributesTo(ids, isValidLanguageId), LanguageIdOf())
      {
        var language := all[i].1;
        var found := HasTarget(language, ids, isValidLanguageId);
        FilterMapStep(all, i, ContributesTo(ids, isValidLanguageId), LanguageIdOf());
        if found {
          ordered := ordered + [Lookup(language, StrKey("id"))];
        }
        i := i + 1;
      }
      assert all[..|all|] == all;
      return TargetIds(ordered);
    }
    return NoTargets;
  }

  /** The ordered targets: every id is non-empty, valid and one of the data's
      targets; they follow the order of the master list, each master entry
      giving at most one id; and every master entry whose id qualifies gives
      its id. */
  lemma OrderedTargetsFollowMaster(languagesAll: Value, targets: seq<(Key, Value)>, isValidLanguageId: Value -> bool)
    returns (pos: seq<nat>)
    ensures var out := OrderedTargets(languagesAll, targets, isValidLanguageId);
      |pos| == |out|
      && (forall k :: 0 <= k < |out| ==>
            !Empty(out[k]) && isValidLanguageId(out[k])
            && (exists j :: 0 <= j < |targets| && targets[j].1 == out[k]))
      && (forall k :: 0 <= k < |pos| ==>
            (pos[k] < |Entries(languagesAll)|
             && out[k] == Lookup(Entries(languagesAll)[pos[k]].1, StrKey("id"))))
      && (forall k, l :: 0 <= k < l < |pos| ==> pos[k] < pos[l])
      && (forall i ::
            (0 <= i < |Entries(languagesAll)|
             && Contributes(Entries(languagesAll)[i].1, targets, isValidLanguageId)) ==> i in pos)
  {
    var all := Entries(languagesAll);
    pos := FilterMapPositions(all, ContributesTo(targets, isValidLanguageId), LanguageIdOf());
    var out := OrderedTargets(languagesAll, targets, isValidLanguageId);
    forall k | 0 <= k < |out|
      ensures !Empty(out[k]) && isValidLanguageId(out[k])
        && (exists j :: 0 <= j < |targets| && targets[j].1 == out[k])
    {
      assert ContributesTo(targets, isValidLanguageId)(all[pos[k]]);
      assert Contributes(all[pos[k]].1, targets, isValidLanguageId);
      assert out[k] == Lookup(all[pos[k]].1, StrKey("id"));
    }
    forall k | 0 <= k < |pos|
      ensures pos[k] < |all| && out[k] == Lookup(all[pos[k]].1, StrKey("id"))
    {
      assert out[k] == LanguageIdOf()(all[pos[k]]);
    }
    forall i | 0 <= i < |all| && Contributes(all[i].1, targets, isValidLanguageId)
      ensures i in pos
    {
      assert ContributesTo(targets, isValidLanguageId)(all[i]);
    }
  }

  /** The features the plugin knows about. */
  predicate IsKnownFeature(name: Key)
  {
    name == StrKey("search") || name == StrKey("commercial")
  }

  function IsEnabledFeature(): ((Key, Value)) -> bool
  {
    (e: (Key, Value)) => Truthy(e.1) && IsKnownFeature(e.0)
  }

  function FeatureNameOf(): ((Key, Value)) -> string
  {
    (e: (Key, Value)) => if e.0.StrKey? then e.0.s else ""
  }

  /** The enabled features of the API data. `in_array` compares loosely; an
      integer key never equals 'search' or 'commercial' (PHP 8). */
  function EnabledFeatures(data: Value): (r: seq<string>)
    ensures |r| <= |Entries(Lookup(data, StrKey("features")))|
    ensures forall k :: 0 <= k < |r| ==> r[k] == "search" || r[k] == "commercial"
  {
    var features := Lookup(data, StrKey("features"));
    if !Empty(features) && features.Arr? then
      var es := features.entries;
      KeptImages(es, IsEnabledFeature(), FeatureNameOf());
      assert forall k :: 0 <= k < |Kept(es, IsEnabledFeature())| ==>
        IsKnownFeature(es[Kept(es, IsEnabledFeature())[k]].0);
      FilterMap(es, IsEnabledFeature(), FeatureNameOf())
    else []
  }

  /** `wplng_get_api_feature`. */
  method GetApiFeature(data: Value) returns (features: seq<string>)
    ensures features == EnabledFeatures(data)
  {
    features := [];
    var given := Lookup(data, StrKey("features"));
    if !Empty(given) && given.Arr? {
      var i := 0;
      while i < |given.entries|
        invariant 0 <= i <= |given.entries|
        invariant features == FilterMap(given.entries[..i], IsEnabledFeature(), FeatureNameOf())
      {
        FilterMapStep(given.entries, i, IsEnabledFeature(), FeatureNameOf());
        var name := given.entries[i].0;
        var allow := given.entries[i].1;
        if Truthy(allow) && (name == StrKey("search") || name == StrKey("commercial")) {
          features := features + [name.s];
        }
        i := i + 1;
      }
      assert given.entries[..|given.entries|] == given.entries;
    }
  }

  /** The data's features array holds `name` with a truthy flag. */
  predicate HasTruthyFlag(name: string, data: Value)
  {
    var entries := Entries(Lookup(data, StrKey("features")));
    exists i :: 0 <= i < |entries| && entries[i].0 == StrKey(name) && Truthy(entries[i].1)
  }

  /** Every enabled feature is 'search' or 'commercial' with a truthy flag in
      the data. */
  lemma EnabledFeaturesAreKnown(data: Value)
    ensures forall k :: 0 <= k < |EnabledFeatures(data)| ==>
      (EnabledFeatures(data)[k] == "search" || EnabledFeatures(data)[k] == "commercial")
      && HasTruthyFlag(EnabledFeatures(data)[k], data)
  {
    forall k | 0 <= k < |EnabledFeatures(data)|
      ensures (EnabledFeatures(data)[k] == "search" || EnabledFeatures(data)[k] == "commercial")
        && HasTruthyFlag(EnabledFeatures(data)[k], data)
    {
      assert FeatureIsAllowed(EnabledFeatures(data)[k], data);
      FeatureIsAllowedIff(EnabledFeatures(data)[k], data);
    }
  }

  /** `wplng_api_feature_is_allow`: only a known feature can be allowed. */
  predicate FeatureIsAllowed(name: string, data: Value)
    ensures FeatureIsAllowed(name, data) ==> name == "search" || name == "commercial"
  {
    name in EnabledFeatures(data)
  }

  /** A feature is allowed exactly when it is 'search' or 'commercial' and
      the data's features array holds it with a truthy flag. */
  lemma FeatureIsAllowedIff(name: string, data: Value)
    ensures FeatureIsAllowed(name, data) <==>
      (name == "search" || name == "commercial") && HasTruthyFlag(name, data)
  {
    var features := Lookup(data, StrKey("features"));
    if !Empty(features) && features.Arr? {
      FilterMapMembership(features.entries, IsEnabledFeature(), FeatureNameOf(), name);
      assert Entries(features) == features.entries;
      assert EnabledFeatures(data) == FilterMap(features.entries, IsEnabledFeature(), FeatureNameOf());
      if exists i :: 0 <= i < |features.entries|
           && features.entries[i].0 == StrKey(name) && Truthy(features.entries[i].1)
           && (name == "search" || name == "commercial")
      {
        var i :| 0 <= i < |features.entries|
           && features.entries[i].0 == StrKey(name) && Truthy(features.entries[i].1)
           && (name == "search" || name == "commercial");
        assert IsEnabledFeature()(features.entries[i]) && FeatureNameOf()(features.entries[i]) == name;
      }
      if name in EnabledFeatures(data) {
        var i :| 0 <= i < |features.entries| && IsEnabledFeature()(features.entries[i])
          && FeatureNameOf()(features.entries[i]) == name;
        assert features.entries[i].0 == StrKey(name) && Truthy(features.entries[i].1);
        assert name == "search" || name == "commercial";
      }
    }
  }
}
