/**
 * The translation gateway `wplng_api_call_translate`: a chain of guards in
 * front of one call to the wpLingua API, each of which falls back to the
 * sanitised texts, followed by the post-processing of the returned
 * translations.
 *
 * The WordPress and HTTP collaborators whose bodies are not part of this
 * model (esc_html, wp_kses, the dictionary tagging functions, JSON encoding
 * and decoding, language-id validation, sanitize_url, the context filter and
 * wp_remote_post) are fields of an `Env` record of functions.
 */
module TranslateApi {
  import opened Php
  import opened Lists
  import opened ApiKey

  /** The body of the POST request sent to the API. */
  datatype RequestBody = RequestBody(
    request: string,
    apiKey: string,
    version: string,
    context: string,
    source: Value,
    target: Value,
    texts: string)

  /** What `wp_remote_post` hands back: a WP_Error, or a response with its
      status code and raw body. */
  datatype Remote = TransportError | Response(status: int, body: string)

  /** How the gateway ends: it returns a value, or PHP stops with a fatal
      error. */
  datatype Outcome = Returned(value: Value) | Fatal

  /** The entries of `$_SERVER` this function reads and whether DOING_AJAX is
      defined and true; `None` is an unset entry. */
  datatype ServerInfo = ServerInfo(
    doingAjax: bool,
    referer: Option<string>,
    https: Option<string>,
    host: Option<string>,
    requestUri: Option<string>)

  /** The collaborators of the gateway. `jsonEncode` returns `None` where
      `wp_json_encode` returns false; `addTags` and `replaceTags` already
      hold the dictionary entries read from storage. */
  datatype Env = Env(
    escHtml: string -> string,
    kses: string -> string,
    isValidLanguageId: Value -> bool,
    currentLanguageId: string,
    websiteLanguageId: string,
    addTags: Value -> Value,
    jsonEncode: Value -> Option<string>,
    jsonDecode: string -> Value,
    replaceTags: (Value, Value) -> Value,
    sanitizeUrl: string -> string,
    contextFilter: string -> string,
    apiVersion: string,
    post: RequestBody -> Remote)

  /* ---------------------------------------------------------------------
   * Sanitising the texts
   * ------------------------------------------------------------------- */

  /** One text after sanitisation: escaped if it is a string, '' otherwise. */
  function SanitizeText(text: Value, escHtml: string -> string): (r: Value)
    ensures r.Str?
    ensures text.Str? ==> r == Str(escHtml(text.s))
    ensures !text.Str? ==> r == Str("")
  {
    if text.Str? then Str(escHtml(text.s)) else Str("")
  }

  /** The texts after the sanitising loop: same keys in the same order, every
      value sanitised. */
  function SanitizedTexts(texts: seq<(Key, Value)>, escHtml: string -> string): (r: seq<(Key, Value)>)
    ensures |r| == |texts|
    ensures forall i :: 0 <= i < |r| ==> r[i].0 == texts[i].0 && r[i].1.Str?
    ensures forall i :: 0 <= i < |r| ==> r[i].1 == SanitizeText(texts[i].1, escHtml)
  {
    seq(|texts|, i requires 0 <= i < |texts| => (texts[i].0, SanitizeText(texts[i].1, escHtml)))
  }

  /** The loop that overwrites every `$texts[$key]` in place. */
  method SanitizeTexts(texts: seq<(Key, Value)>, escHtml: string -> string) returns (r: seq<(Key, Value)>)
    ensures r == SanitizedTexts(texts, escHtml)
  {
    r := texts;
    var i := 0;
    while i < |r|
      invariant 0 <= i <= |r| == |texts|
      invariant forall j :: 0 <= j < i ==> r[j] == (texts[j].0, SanitizeText(texts[j].1, escHtml))
      invariant forall j :: i <= j < |r| ==> r[j] == texts[j]
    {
      var key := r[i].0;
      var text := r[i].1;
      if !text.Str? {
        r := r[i := (key, Str(""))];
      } else {
        r := r[i := (key, Str(escHtml(text.s)))];
      }
      i := i + 1;
    }
  }

  /* ---------------------------------------------------------------------
   * Language ids and request context
   * ------------------------------------------------------------------- */

  /** A language id argument: an empty one takes the default, a given one
      must be valid. `None` is the early return. */
  function ResolveId(given: Value, default: string, isValidLanguageId: Value -> bool): (r: Option<Value>)
    ensures Empty(given) ==> r == Some(Str(default))
    ensures !Empty(given) ==> (r.Some? <==> isValidLanguageId(given))
    ensures !Empty(given) && r.Some? ==> r.value == given
  {
    if Empty(given) then Some(Str(default))
    else if isValidLanguageId(given) then Some(given)
    else None
  }

  /** In an AJAX request with a non-empty referer, the referer is the
      context. */
  predicate HasAjaxReferer(server: ServerInfo)
  {
    server.doingAjax && server.referer.Some? && !EmptyString(server.referer.value)
  }

  /** Otherwise the page URL is the context, when HTTPS, HTTP_HOST and
      REQUEST_URI are all set. */
  predicate HasPageUrl(server: ServerInfo)
  {
    server.https.Some? && server.host.Some? && server.requestUri.Some?
  }

  function PageUrl(server: ServerInfo): string
    requires HasPageUrl(server)
  {
    (if EmptyString(server.https.value) then "http" else "https")
      + "://" + server.host.value + server.requestUri.value
  }

  /** The context sent with the request: 'UNKNOW' unless the referer or the
      page URL is available, then passed through the context filter. */
  function RequestContext(server: ServerInfo, env: Env): (c: string)
    ensures HasAjaxReferer(server) ==> c == env.contextFilter(env.sanitizeUrl(server.referer.value))
    ensures !HasAjaxReferer(server) && HasPageUrl(server) ==>
      c == env.contextFilter(env.sanitizeUrl(PageUrl(server)))
    ensures !HasAjaxReferer(server) && !HasPageUrl(server) ==> c == env.contextFilter("UNKNOW")
  {
    env.contextFilter(
      if HasAjaxReferer(server) then env.sanitizeUrl(server.referer.value)
      else if HasPageUrl(server) then env.sanitizeUrl(PageUrl(server))
      else "UNKNOW")
  }

  /** The JSON of the tagged texts; `None` where the gateway gives up because
      it is empty. */
  function TaggedJson(texts: seq<(Key, Value)>, env: Env): (json: Option<string>)
    ensures json.Some? ==> env.jsonEncode(env.addTags(Arr(texts))) == json && !EmptyString(json.value)
    ensures json.None? ==> var e := env.jsonEncode(env.addTags(Arr(texts))); e.None? || EmptyString(e.value)
  {
    var encoded := env.jsonEncode(env.addTags(Arr(texts)));
    if encoded.None? || EmptyString(encoded.value) then None else encoded
  }

  /* ---------------------------------------------------------------------
   * The response
   * ------------------------------------------------------------------- */

  /** The call worked: no WP_Error and status 200. */
  predicate Accepted(remote: Remote)
  {
    remote.Response? && remote.status == 200
  }

  /** The translations of a decoded response, or `None` when the response
      carries an error or its translations are empty or not an array. The
      number of translations is not compared with the number of texts. */
  function ResponseTranslations(response: Value): (r: Option<Value>)
    ensures r.Some? <==>
      (!IsSet(response, StrKey("error"))
       && Lookup(response, StrKey("translations")).Arr?
       && Lookup(response, StrKey("translations")).entries != [])
    ensures r.Some? ==> r.value == Lookup(response, StrKey("translations"))
  {
    var translations := Lookup(response, StrKey("translations"));
    if IsSet(response, StrKey("error")) || Empty(translations) || !translations.Arr? then None
    else Some(translations)
  }

  /** The corrected response check: also demands one translation per text. */
  function ResponseTranslationsIntended(response: Value, count: nat): (r: Option<Value>)
    ensures r.Some? <==> ResponseTranslations(response).Some? && |ResponseTranslations(response).value.entries| == count
    ensures r.Some? ==> r == ResponseTranslations(response) && |r.value.entries| == count
  {
    var translations := ResponseTranslations(response);
    if translations.Some? && |translations.value.entries| == count then translations else None
  }

  /* ---------------------------------------------------------------------
   * Post-processing the translations
   * ------------------------------------------------------------------- */

  /** One iteration of the post-processing loop over `$texts_untagged`. A
      string is passed through `wp_kses` and appended; any other item whose
      key is set in the sanitised texts makes that text the whole
      accumulator (the assignment at line 205). The accumulator is then a
      string, and `[]` on a string is a fatal error in PHP. */
  function CollectStep(acc: Outcome, item: (Key, Value), texts: Value, kses: string -> string): (r: Outcome)
    ensures r.Returned? ==> acc.Returned?
    ensures r.Returned? && item.1.Str? ==>
      && acc.value.Arr? && r.value.Arr?
      && r.value.entries == acc.value.entries + [(IntKey(NextIndex(acc.value.entries)), Str(kses(item.1.s)))]
    ensures r.Returned? && !item.1.Str? ==> r.value == acc.value || r.value == Lookup(texts, item.0)
  {
    match acc
    case Fatal => Fatal
    case Returned(translations) =>
      if item.1.Str? then
        if translations.Arr? then Returned(Arr(Append(translations.entries, Str(kses(item.1.s)))))
        else Fatal
      else if IsSet(texts, item.0) then Returned(Lookup(texts, item.0))
      else acc
  }

  /** The post-processing loop as written, over the items in order. */
  function Collected(items: seq<(Key, Value)>, texts: Value, kses: string -> string): (r: Outcome)
    ensures r.Returned? ==>
      || r.value.Arr?
      || exists i :: 0 <= i < |items| && !items[i].1.Str? && r.value == Lookup(texts, items[i].0)
  {
    if items == [] then Returned(Arr([]))
    else
      var n := |items| - 1;
      var init := items[..n];
      var acc := Collected(init, texts, kses);
      var r := CollectStep(acc, items[n], texts, kses);
      assert r.Returned? && !r.value.Arr? ==>
        exists i :: 0 <= i < |items| && !items[i].1.Str? && r.value == Lookup(texts, items[i].0) by {
        if r.Returned? && !r.value.Arr? {
          if r.value == Lookup(texts, items[n].0) && !items[n].1.Str? {
          } else {
            assert r.value == acc.value;
            var i :| 0 <= i < |init| && !init[i].1.Str? && acc.value == Lookup(texts, init[i].0);
            assert items[i] == init[i];
          }
        }
      }
      r
  }

  /** A fatal error ends the loop for good. */
  lemma {:induction false} FatalIsFinal(items: seq<(Key, Value)>, i: nat, texts: Value, kses: string -> string)
    requires i <= |items|
    requires Collected(items[..i], texts, kses) == Fatal
    ensures Collected(items, texts, kses) == Fatal
    decreases |items| - i
  {
    if i < |items| {
      assert items[..i + 1][..i] == items[..i];
      FatalIsFinal(items, i + 1, texts, kses);
    } else {
      assert items[..i] == items;
    }
  }

  /** The loop of lines 199-207. */
  method CollectTranslations(items: seq<(Key, Value)>, texts: Value, kses: string -> string) returns (r: Outcome)
    ensures r == Collected(items, texts, kses)
  {
    var translations := Arr([]);
    var i := 0;
    while i < |items|
      invariant 0 <= i <= |items|
      invariant Collected(items[..i], texts, kses) == Returned(translations)
    {
      assert items[..i + 1][..i] == items[..i];
      var key := items[i].0;
      var translation := items[i].1;
      if translation.Str? {
        if !translations.Arr? {
          FatalIsFinal(items, i + 1, texts, kses);
          return Fatal;
        }
        translations := Arr(Append(translations.entries, Str(kses(translation.s))));
      } else if IsSet(texts, key) {
        translations := Lookup(texts, key);
      }
      i := i + 1;
    }
    assert items[..|items|] == items;
    r := Returned(translations);
  }

  /** The translations of a response made of strings only. */
  function KsesOf(items: seq<(Key, Value)>, kses: string -> string): (r: seq<Value>)
    requires forall i :: 0 <= i < |items| ==> items[i].1.Str?
  {
    seq(|items|, i requires 0 <= i < |items| && items[i].1.Str? => Str(kses(items[i].1.s)))
  }

  /** When every untagged item is a string, the result is the list of their
      `wp_kses` images in response order, one per item: as long as the
      response, whatever the number of texts sent. */
  lemma {:induction false} CollectStrings(items: seq<(Key, Value)>, texts: Value, kses: string -> string)
    requires forall i :: 0 <= i < |items| ==> items[i].1.Str?
    ensures Collected(items, texts, kses) == Returned(Arr(ListOf(KsesOf(items, kses))))
    ensures |Collected(items, texts, kses).value.entries| == |items|
  {
    if items != [] {
      var n := |items| - 1;
      var init := items[..n];
      assert forall i :: 0 <= i < |init| ==> init[i] == items[i];
      CollectStrings(init, texts, kses);
      var v := Str(kses(items[n].1.s));
      var before := KsesOf(init, kses);
      KsesOfSnoc(items, kses);
      assert Collected(items, texts, kses) == CollectStep(Collected(init, texts, kses), items[n], texts, kses);
      assert CollectStep(Returned(Arr(ListOf(before))), items[n], texts, kses)
        == Returned(Arr(Append(ListOf(before), v)));
      AppendToList(before, v);
    }
  }

  lemma KsesOfSnoc(items: seq<(Key, Value)>, kses: string -> string)
    requires items != [] && forall i :: 0 <= i < |items| ==> items[i].1.Str?
    ensures var n := |items| - 1;
      KsesOf(items, kses) == KsesOf(items[..n], kses) + [Str(kses(items[n].1.s))]
  {
    var n := |items| - 1;
    assert forall i :: 0 <= i < n ==> items[..n][i] == items[i];
  }

  /** As written: a non-string item after a translation replaces the whole
      list by one of the sanitised texts, and a translation after that is a
      fatal error. */
  lemma ClobberedByNonString(kses: string -> string)
    ensures var texts := Arr([(IntKey(0), Str("a")), (IntKey(1), Str("b"))]);
      Collected([(IntKey(0), Str("x")), (IntKey(1), Int(7))], texts, kses) == Returned(Str("b"))
    ensures var texts := Arr([(IntKey(0), Str("a")), (IntKey(1), Str("b"))]);
      Collected([(IntKey(0), Int(7)), (IntKey(1), Str("y"))], texts, kses) == Fatal
  {
    var texts := Arr([(IntKey(0), Str("a")), (IntKey(1), Str("b"))]);
    var first := [(IntKey(0), Str("x")), (IntKey(1), Int(7))];
    assert first[..1][..0] == [];
    assert Append([], Str(kses("x"))) == [(IntKey(0), Str(kses("x")))];
    assert Collected(first[..1], texts, kses) == Returned(Arr([(IntKey(0), Str(kses("x")))]));
    assert Lookup(texts, IntKey(1)) == Str("b");
    var second := [(IntKey(0), Int(7)), (IntKey(1), Str("y"))];
    assert second[..1][..0] == [];
    assert Lookup(texts, IntKey(0)) == Str("a");
    assert Collected(second[..1], texts, kses) == Returned(Str("a"));
  }

  /** From a position on, the loop as written keeps a non-array: a fatal
      error or a single text, never a list. This holds up to the next string
      item as long as the non-string items in between bring no array in.
      The outcome at the next string item is that fatal error. */
  lemma {:induction false} ClobberedStaysScalar(items: seq<(Key, Value)>, i: nat, j: nat, texts: Value, kses: string -> string)
    requires i < j <= |items|
    requires !items[i].1.Str? && Lookup(texts, items[i].0).Str?
    requires forall k :: i < k < j ==> !items[k].1.Str? && !Lookup(texts, items[k].0).Arr?
    ensures Collected(items[..j], texts, kses).Fatal? || !Collected(items[..j], texts, kses).value.Arr?
    decreases j - i
  {
    var n := j - 1;
    assert items[..j][..n] == items[..n];
    assert items[..j][n] == items[n];
    if n > i {
      ClobberedStaysScalar(items, i, n, texts, kses);
    }
  }

  /** As written, for every input: a string item that follows a non-string
      item whose key holds a text, with only such non-string items between
      them, makes the whole loop a fatal error. */
  lemma {:induction false} TranslationAfterClobberIsFatal(items: seq<(Key, Value)>, i: nat, j: nat, texts: Value, kses: string -> string)
    requires i < j < |items|
    requires !items[i].1.Str? && Lookup(texts, items[i].0).Str?
    requires forall k :: i < k < j ==> !items[k].1.Str? && !Lookup(texts, items[k].0).Arr?
    requires items[j].1.Str?
    ensures Collected(items, texts, kses) == Fatal
  {
    ClobberedStaysScalar(items, i, j, texts, kses);
    var before := Collected(items[..j], texts, kses);
    assert before.Fatal? || !before.value.Arr?;
    var upTo := items[..j + 1];
    assert upTo[..j] == items[..j] && upTo[j] == items[j];
    assert Collected(upTo, texts, kses) == CollectStep(before, items[j], texts, kses);
    assert CollectStep(before, items[j], texts, kses) == Fatal;
    FatalIsFinal(items, j + 1, texts, kses);
  }

  /** As written, for every input: when the loop is still running at a
      non-string item whose key holds a text, and no later item is a string
      or has its text, the result is that one text and the list built so
      far is lost. */
  lemma {:induction false} ClobberIsFinal(items: seq<(Key, Value)>, i: nat, texts: Value, kses: string -> string)
    requires i < |items|
    requires Collected(items[..i], texts, kses).Returned?
    requires !items[i].1.Str? && IsSet(texts, items[i].0)
    requires forall k :: i < k < |items| ==> !items[k].1.Str? && !IsSet(texts, items[k].0)
    ensures Collected(items, texts, kses) == Returned(Lookup(texts, items[i].0))
    decreases |items| - i
  {
    var n := |items| - 1;
    var init := items[..n];
    assert Collected(items, texts, kses) == CollectStep(Collected(init, texts, kses), items[n], texts, kses);
    if n == i {
      assert init == items[..i];
    } else {
      assert init[..i] == items[..i] && init[i] == items[i];
      assert forall k :: i < k < |init| ==> init[k] == items[k];
      ClobberIsFinal(init, i, texts, kses);
    }
  }

  /** The item kept by the corrected loop: a string, or an item whose key is
      set in the sanitised texts. */
  function KeepsTranslation(texts: Value): ((Key, Value)) -> bool
  {
    (item: (Key, Value)) => item.1.Str? || IsSet(texts, item.0)
  }

  /** What the corrected loop appends: the `wp_kses` image of a string, the
      original text otherwise. */
  function TranslationOf(texts: Value, kses: string -> string): ((Key, Value)) -> Value
  {
    (item: (Key, Value)) => if item.1.Str? then Str(kses(item.1.s)) else Lookup(texts, item.0)
  }

  /** The corrected loop: `$translations[] = $texts[ $key ]` at line 205. */
  function CollectedIntended(items: seq<(Key, Value)>, texts: Value, kses: string -> string): seq<(Key, Value)>
  {
    ListOf(FilterMap(items, KeepsTranslation(texts), TranslationOf(texts, kses)))
  }

  /** The corrected loop always yields a list, one entry per kept item in
      order; when each item is a string or has its text, the list is
      positional: entry k translates item k. */
  lemma CollectedIntendedPositional(items: seq<(Key, Value)>, texts: Value, kses: string -> string)
    requires forall i :: 0 <= i < |items| ==> items[i].1.Str? || IsSet(texts, items[i].0)
    ensures |CollectedIntended(items, texts, kses)| == |items|
    ensures forall k :: 0 <= k < |items| ==>
      CollectedIntended(items, texts, kses)[k]
        == (IntKey(k), if items[k].1.Str? then Str(kses(items[k].1.s)) else Lookup(texts, items[k].0))
  {
    FilterMapKeepsAll(items, KeepsTranslation(texts), TranslationOf(texts, kses));
  }

  /** On a response of strings only, the corrected loop and the loop as
      written agree. */
  lemma CollectedIntendedAgrees(items: seq<(Key, Value)>, texts: Value, kses: string -> string)
    requires forall i :: 0 <= i < |items| ==> items[i].1.Str?
    ensures Collected(items, texts, kses) == Returned(Arr(CollectedIntended(items, texts, kses)))
  {
    CollectStrings(items, texts, kses);
    FilterMapKeepsAll(items, KeepsTranslation(texts), TranslationOf(texts, kses));
    assert FilterMap(items, KeepsTranslation(texts), TranslationOf(texts, kses)) == KsesOf(items, kses);
  }

  /** As written: a response with one translation for two texts goes
      through, and the caller gets one translation back. The corrected check
      refuses it. */
  lemma CountNotCompared(kses: string -> string)
    ensures var response := Arr([(StrKey("translations"), Arr([(IntKey(0), Str("x"))]))]);
      && ResponseTranslations(response) == Some(Arr([(IntKey(0), Str("x"))]))
      && ResponseTranslationsIntended(response, 2).None?
    ensures var texts := Arr([(IntKey(0), Str("a")), (IntKey(1), Str("b"))]);
      Collected([(IntKey(0), Str("x"))], texts, kses) == Returned(Arr([(IntKey(0), Str(kses("x")))]))
  {
    var response := Arr([(StrKey("translations"), Arr([(IntKey(0), Str("x"))]))]);
    assert Lookup(response, StrKey("error")) == Null;
    assert Lookup(response, StrKey("translations")) == Arr([(IntKey(0), Str("x"))]);
    var items := [(IntKey(0), Str("x"))];
    assert items[..0] == [];
    assert Append([], Str(kses("x"))) == [(IntKey(0), Str(kses("x")))];
  }

  /** With the corrected response check and a response of strings, the
      corrected loop returns exactly one translation per text. */
  lemma IntendedCountMatches(response: Value, count: nat, texts: Value, kses: string -> string)
    requires ResponseTranslationsIntended(response, count).Some?
    requires var items := ResponseTranslationsIntended(response, count).value.entries;
      forall i :: 0 <= i < |items| ==> items[i].1.Str?
    ensures |CollectedIntended(ResponseTranslationsIntended(response, count).value.entries, texts, kses)| == count
  {
    var items := ResponseTranslationsIntended(response, count).value.entries;
    CollectedIntendedPositional(items, texts, kses);
  }

  /* ---------------------------------------------------------------------
   * The gateway
   * ------------------------------------------------------------------- */

  /** The guards between the sanitised texts and the request: an API key,
      usable language ids and non-empty JSON of the tagged texts. */
  predicate Sendable(sanitized: seq<(Key, Value)>, languageSourceId: Value, languageTargetId: Value,
                     storedApiKey: string, env: Env)
  {
    && !EmptyString(GetApiKey(storedApiKey))
    && ResolveId(languageTargetId, env.currentLanguageId, env.isValidLanguageId).Some?
    && ResolveId(languageSourceId, env.websiteLanguageId, env.isValidLanguageId).Some?
    && TaggedJson(sanitized, env).Some?
  }

  /** The guards that let the request be sent. */
  predicate WillSend(texts: Value, languageSourceId: Value, languageTargetId: Value, storedApiKey: string, env: Env)
  {
    && !Empty(texts) && texts.Arr?
    && Sendable(SanitizedTexts(texts.entries, env.escHtml), languageSourceId, languageTargetId, storedApiKey, env)
  }

  /** Lines 116-133: the context, built step by step. */
  method BuildContext(server: ServerInfo, env: Env) returns (context: string)
    ensures context == RequestContext(server, env)
  {
    context := "UNKNOW";
    if server.doingAjax && server.referer.Some? && !EmptyString(server.referer.value) {
      context := server.referer.value;
      context := env.sanitizeUrl(context);
    } else if server.https.Some? && server.host.Some? && server.requestUri.Some? {
      context := if EmptyString(server.https.value) then "http" else "https";
      context := context + "://" + server.host.value + server.requestUri.value;
      context := env.sanitizeUrl(context);
    }
    context := env.contextFilter(context);
  }

  /** Lines 71-147: from the sanitised texts to the request body, or `None`
      at the first guard that fails. */
  method ComposeRequest(sanitized: seq<(Key, Value)>, languageSourceId: Value, languageTargetId: Value,
                        storedApiKey: string, server: ServerInfo, env: Env)
    returns (body: Option<RequestBody>)
    ensures body.Some? <==> Sendable(sanitized, languageSourceId, languageTargetId, storedApiKey, env)
    ensures body.Some? ==> body.value == RequestBody(
      "translate",
      GetApiKey(storedApiKey),
      env.apiVersion,
      RequestContext(server, env),
      ResolveId(languageSourceId, env.websiteLanguageId, env.isValidLanguageId).value,
      ResolveId(languageTargetId, env.currentLanguageId, env.isValidLanguageId).value,
      TaggedJson(sanitized, env).value)
  {
    var apiKey := GetApiKey(storedApiKey);
    if EmptyString(apiKey) {
      return None;
    }

    var target := languageTargetId;
    if Empty(target) {
      target := Str(env.currentLanguageId);
    } else if !env.isValidLanguageId(target) {
      return None;
    }
    assert ResolveId(languageTargetId, env.currentLanguageId, env.isValidLanguageId) == Some(target);

    var source := languageSourceId;
    if Empty(source) {
      source := Str(env.websiteLanguageId);
    } else if !env.isValidLanguageId(source) {
      return None;
    }
    assert ResolveId(languageSourceId, env.websiteLanguageId, env.isValidLanguageId) == Some(source);

    var json := env.jsonEncode(env.addTags(Arr(sanitized)));
    if json.None? || EmptyString(json.value) {
      return None;
    }
    assert TaggedJson(sanitized, env) == json;

    var context := BuildContext(server, env);
    return Some(RequestBody("translate", apiKey, env.apiVersion, context, source, target, json.value));
  }

  /** `wplng_api_call_translate`. `storedApiKey` is the stored option read
      by `wplng_get_api_key`; `sent` is the request body passed to
      `wp_remote_post`, `None` when no request is made. */
  method Translate(texts: Value, languageSourceId: Value, languageTargetId: Value,
                   storedApiKey: string, server: ServerInfo, env: Env)
    returns (result: Outcome, sent: Option<RequestBody>)
    // lines 57-59: nothing to translate
    ensures Empty(texts) || !texts.Arr? ==> result == Returned(Arr([])) && sent.None?
    // the other guards before the request fall back to the sanitised texts
    ensures !Empty(texts) && texts.Arr? && !WillSend(texts, languageSourceId, languageTargetId, storedApiKey, env)
      ==> result == Returned(Arr(SanitizedTexts(texts.entries, env.escHtml))) && sent.None?
    ensures sent.Some? <==> WillSend(texts, languageSourceId, languageTargetId, storedApiKey, env)
    ensures sent.Some? ==> sent.value == RequestBody(
      "translate",
      GetApiKey(storedApiKey),
      env.apiVersion,
      RequestContext(server, env),
      ResolveId(languageSourceId, env.websiteLanguageId, env.isValidLanguageId).value,
      ResolveId(languageTargetId, env.currentLanguageId, env.isValidLanguageId).value,
      TaggedJson(SanitizedTexts(texts.entries, env.escHtml), env).value)
    // lines 165-169: transport error or a status other than 200
    ensures sent.Some? && !Accepted(env.post(sent.value)) ==>
      result == Returned(Arr(SanitizedTexts(texts.entries, env.escHtml)))
    // lines 177-183: an error or no usable translations in the response
    ensures (sent.Some? && Accepted(env.post(sent.value))
             && ResponseTranslations(env.jsonDecode(env.post(sent.value).body)).None?) ==>
      result == Returned(Arr(SanitizedTexts(texts.entries, env.escHtml)))
    // lines 191-209: the untagged translations, post-processed
    ensures (sent.Some? && Accepted(env.post(sent.value))
             && ResponseTranslations(env.jsonDecode(env.post(sent.value).body)).Some?) ==>
      var translations := ResponseTranslations(env.jsonDecode(env.post(sent.value).body)).value;
      result == Collected(Entries(env.replaceTags(translations, sent.value.target)),
                          Arr(SanitizedTexts(texts.entries, env.escHtml)), env.kses)
  {
    if Empty(texts) || !texts.Arr? {
      return Returned(Arr([])), None;
    }

    var sanitized := SanitizeTexts(texts.entries, env.escHtml);
    var fallback := Returned(Arr(sanitized));

    sent := ComposeRequest(sanitized, languageSourceId, languageTargetId, storedApiKey, server, env);
    if sent.None? {
      return fallback, sent;
    }

    var request := env.post(sent.value);
    if request.TransportError? || request.status != 200 {
      return fallback, sent;
    }

    var response := env.jsonDecode(request.body);
    if IsSet(response, StrKey("error"))
      || Empty(Lookup(response, StrKey("translations")))
      || !Lookup(response, StrKey("translations")).Arr?
    {
      return fallback, sent;
    }

    var untagged := env.replaceTags(Lookup(response, StrKey("translations")), sent.value.target);
    result := CollectTranslations(Entries(untagged), Arr(sanitized), env.kses);
  }
}
