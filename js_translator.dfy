/**
 * `wplng_translate_js`: find the first `var`/`let`/`window._` assignment of
 * an object literal in a script, hand the literal to the JSON translator,
 * and splice the translation back with `str_replace`.
 *
 * The extraction regex `#(var\s|let\s|window\._)(.*)\s?=\s?(\{.*\});?#Ui` is
 * modelled by a scanner that follows PCRE's search order for it: the
 * leftmost start position wins; the `U` flag makes every quantifier lazy, so
 * the name is the shortest one after which `\s?=\s?{` follows, and the
 * literal ends at the first `}` after its `{`; without the `s` flag `.`
 * does not match a newline; `i` makes the keywords case-insensitive.
 * Because `=` and `{` are not white space, at most one way of matching the
 * tail exists for each name length, so the scanner needs no backtracking.
 */
module JsTranslator {
  import opened Php

  /* ---------------------------------------------------------------------
   * The extraction regex
   * ------------------------------------------------------------------- */

  /** PCRE's `\s`: space, tab, line feed, vertical tab, form feed and
      carriage return. */
  predicate IsPcreSpace(c: char)
  {
    c == ' ' || c == '\t' || c == '\n' || c == '\U{000B}' || c == '\U{000C}' || c == '\r'
  }

  /** ASCII lower case, the folding the `i` flag applies. */
  function Lower(c: char): char
  {
    if 'A' <= c <= 'Z' then (c as int + 32) as char else c
  }

  /** The lower-case `word` occurs at `at`, ignoring case. */
  predicate WordAt(js: string, at: nat, word: string)
    decreases |word|
  {
    word == [] || (at < |js| && Lower(js[at]) == word[0] && WordAt(js, at + 1, word[1..]))
  }

  /** The length of the first group `(var\s|let\s|window\._)` matched at
      `at`, or 0 when none of the alternatives matches there. */
  function PrefixLength(js: string, at: nat): (n: nat)
    ensures n == 0 || n == 4 || n == 8
    ensures n > 0 ==> at + n <= |js|
  {
    if (WordAt(js, at, "var") || WordAt(js, at, "let")) && at + 3 < |js| && IsPcreSpace(js[at + 3]) then 4
    else if WordAt(js, at, "window._") then 8
    else 0
  }

  /** The first `}` at or after `i` on the same line, if any: where the lazy
      `.*\}` ends. */
  function CloseBrace(js: string, i: nat): (c: Option<nat>)
    requires i <= |js|
    ensures c.Some? ==> i <= c.value < |js| && js[c.value] == '}'
    decreases |js| - i
  {
    if i == |js| then None
    else if js[i] == '}' then Some(i)
    else if js[i] == '\n' then None
    else CloseBrace(js, i + 1)
  }

  /** The `}` found is the first one, and no newline comes before it. */
  lemma {:induction false} CloseBraceFirst(js: string, i: nat)
    requires i <= |js| && CloseBrace(js, i).Some?
    ensures forall k :: i <= k < CloseBrace(js, i).value ==> js[k] != '}' && js[k] != '\n'
    decreases |js| - i
  {
    if js[i] != '}' {
      CloseBraceFirst(js, i + 1);
    }
  }

  /** Where an object literal `\{.*\}` that starts at `b` ends. */
  function LiteralAt(js: string, b: nat): (r: Option<(nat, nat)>)
    ensures r.Some? ==> r.value.0 == b && b < r.value.1 < |js|
    ensures r.Some? ==> js[b] == '{' && js[r.value.1] == '}'
  {
    if b < |js| && js[b] == '{' then
      match CloseBrace(js, b + 1)
      case Some(c) => Some((b, c))
      case None => None
    else None
  }

  /** The tail `\s?=\s?(\{.*\})` after a name that ends at `q`: the bounds of
      the literal. */
  function TailAt(js: string, q: nat): (r: Option<(nat, nat)>)
    ensures r.Some? ==> q < r.value.0 < r.value.1 < |js|
    ensures r.Some? ==> js[r.value.0] == '{' && js[r.value.1] == '}'
  {
    var e := if q < |js| && js[q] == '=' then q
             else if q + 1 < |js| && IsPcreSpace(js[q]) && js[q + 1] == '=' then q + 1
             else |js|;
    if e == |js| then None
    else if e + 1 < |js| && js[e + 1] == '{' then LiteralAt(js, e + 1)
    else if e + 2 < |js| && IsPcreSpace(js[e + 1]) && js[e + 2] == '{' then LiteralAt(js, e + 2)
    else None
  }

  /** Between the braces of the literal there is no `}` and no newline. */
  lemma TailAtLiteral(js: string, q: nat)
    requires TailAt(js, q).Some?
    ensures var (b, c) := TailAt(js, q).value;
      forall k :: b < k < c ==> js[k] != '}' && js[k] != '\n'
  {
    var b := TailAt(js, q).value.0;
    assert LiteralAt(js, b) == TailAt(js, q);
    CloseBraceFirst(js, b + 1);
  }

  /** The lazy `(.*)`: the shortest name from `q` on, without a newline,
      after which the tail matches. Returns the end of the name and the
      bounds of the literal. */
  function ScanName(js: string, q: nat): (r: Option<(nat, nat, nat)>)
    requires q <= |js|
    ensures r.Some? ==> q <= r.value.0 < r.value.1 < r.value.2 < |js|
    ensures r.Some? ==> TailAt(js, r.value.0) == Some((r.value.1, r.value.2))
    decreases |js| - q
  {
    if TailAt(js, q).Some? then Some((q, TailAt(js, q).value.0, TailAt(js, q).value.1))
    else if q < |js| && js[q] != '\n' then ScanName(js, q + 1)
    else None
  }

  /** The name found holds no newline and is the shortest one the tail
      follows. */
  lemma {:induction false} ScanNameShortest(js: string, q: nat)
    requires q <= |js| && ScanName(js, q).Some?
    ensures forall k :: q <= k < ScanName(js, q).value.0 ==> js[k] != '\n'
    ensures forall k :: q <= k < ScanName(js, q).value.0 ==> TailAt(js, k).None?
    decreases |js| - q
  {
    if TailAt(js, q).None? {
      ScanNameShortest(js, q + 1);
    }
  }

  /** A match of the regex: where it starts, its two captures, and where
      they start in the script. */
  datatype Match = Match(at: nat, name: string, nameAt: nat, literal: string, literalAt: nat)

  /** The match that starts at `at`, if any. */
  function MatchAt(js: string, at: nat): (r: Option<Match>)
    ensures r.Some? ==> r.value.at == at && r.value.nameAt == at + PrefixLength(js, at)
    ensures r.Some? ==> r.value.nameAt + |r.value.name| < r.value.literalAt
    ensures r.Some? ==> r.value.literalAt + |r.value.literal| <= |js|
  {
    var n := PrefixLength(js, at);
    if n == 0 then None
    else
      match ScanName(js, at + n)
      case None => None
      case Some((q, b, c)) => Some(Match(at, js[at + n..q], at + n, js[b..c + 1], b))
  }

  /** The match attempt at each start position. */
  function Attempts(js: string): nat -> Option<Match>
  {
    (p: nat) => MatchAt(js, p)
  }

  /** No attempt succeeds from `from` up to, not including, `to`. */
  predicate NoneIn<T>(attempt: nat -> Option<T>, from: nat, to: nat)
    decreases to - from
  {
    from >= to || (attempt(from).None? && NoneIn(attempt, from + 1, to))
  }

  /** `NoneIn`, position by position. */
  lemma {:induction false} NoneInEach<T>(attempt: nat -> Option<T>, from: nat, to: nat, p: nat)
    requires NoneIn(attempt, from, to) && from <= p < to
    ensures attempt(p).None?
    decreases p - from
  {
    if p > from {
      NoneInEach(attempt, from + 1, to, p);
    }
  }

  /** The leftmost match at or after `from`: PCRE tries the start positions
      from left to right. */
  function FirstFrom(js: string, from: nat): (r: Option<Match>)
    ensures r.Some? ==> from <= r.value.at && MatchAt(js, r.value.at) == r
    ensures r.Some? ==> NoneIn(Attempts(js), from, r.value.at)
    ensures r.None? ==> NoneIn(Attempts(js), from, |js|)
    decreases |js| - from
  {
    if from >= |js| then None
    else
      var here := MatchAt(js, from);
      if here.Some? then here else FirstFrom(js, from + 1)
  }

  /** The first match of `preg_match_all`, the one whose captures
      `$json[2][0]` and `$json[3][0]` denote. */
  function FirstMatch(js: string): Option<Match>
  {
    FirstFrom(js, 0)
  }

  /** The slice from a `{` to the first `}` after it on the same line. */
  lemma BraceSliceShape(js: string, b: nat, c: nat)
    requires b < c < |js| && js[b] == '{' && js[c] == '}'
    requires forall k :: b < k < c ==> js[k] != '}' && js[k] != '\n'
    ensures var lit := js[b..c + 1];
      && |lit| >= 2
      && lit[0] == '{' && lit[|lit| - 1] == '}'
      && (forall k :: 0 < k < |lit| - 1 ==> lit[k] != '}' && lit[k] != '\n')
  {
    var lit := js[b..c + 1];
    forall k | 0 < k < |lit| - 1 ensures lit[k] != '}' && lit[k] != '\n' {
      assert lit[k] == js[b + k];
    }
  }

  /** The literal of a match is the slice of the script it was taken from,
      begins with `{`, ends with the first `}` after it, and holds no
      newline. */
  lemma MatchLiteralShape(js: string, at: nat)
    requires MatchAt(js, at).Some?
    ensures var m := MatchAt(js, at).value;
      && js[m.literalAt..m.literalAt + |m.literal|] == m.literal
      && |m.literal| >= 2
      && m.literal[0] == '{' && m.literal[|m.literal| - 1] == '}'
      && (forall k :: 0 < k < |m.literal| - 1 ==> m.literal[k] != '}' && m.literal[k] != '\n')
  {
    var n := PrefixLength(js, at);
    var scanned := ScanName(js, at + n).value;
    var q, b, c := scanned.0, scanned.1, scanned.2;
    assert MatchAt(js, at) == Some(Match(at, js[at + n..q], at + n, js[b..c + 1], b));
    assert TailAt(js, q) == Some((b, c));
    TailAtLiteral(js, q);
    BraceSliceShape(js, b, c);
  }

  /** The name of a match is the slice of the script right after the
      keyword, holds no newline, and is the shortest one the tail follows. */
  lemma MatchNameShape(js: string, at: nat)
    requires MatchAt(js, at).Some?
    ensures var m := MatchAt(js, at).value;
      && js[m.nameAt..m.nameAt + |m.name|] == m.name
      && (forall k :: 0 <= k < |m.name| ==> m.name[k] != '\n')
      && (forall k :: m.nameAt <= k < m.nameAt + |m.name| ==> TailAt(js, k).None?)
  {
    var n := PrefixLength(js, at);
    var (q, b, c) := ScanName(js, at + n).value;
    ScanNameShortest(js, at + n);
    var name := js[at + n..q];
    assert forall k :: 0 <= k < |name| ==> name[k] == js[at + n + k];
  }

  /** What is captured by the first match: see `MatchLiteralShape` and
      `MatchNameShape`; and no match starts earlier. Without a first match,
      no match starts anywhere. */
  lemma FirstMatchShape(js: string)
    ensures var m := FirstMatch(js);
      m.Some? ==>
        && MatchAt(js, m.value.at) == m
        && js[m.value.literalAt..m.value.literalAt + |m.value.literal|] == m.value.literal
        && m.value.literal[0] == '{' && m.value.literal[|m.value.literal| - 1] == '}'
        && js[m.value.nameAt..m.value.nameAt + |m.value.name|] == m.value.name
        && (forall p :: 0 <= p < m.value.at ==> MatchAt(js, p).None?)
    ensures FirstMatch(js).None? ==> forall p :: 0 <= p < |js| ==> MatchAt(js, p).None?
  {
    var m := FirstMatch(js);
    if m.Some? {
      MatchLiteralShape(js, m.value.at);
      MatchNameShape(js, m.value.at);
      forall p | 0 <= p < m.value.at ensures MatchAt(js, p).None? {
        NoneInEach(Attempts(js), 0, m.value.at, p);
      }
    } else {
      forall p | 0 <= p < |js| ensures MatchAt(js, p).None? {
        NoneInEach(Attempts(js), 0, |js|, p);
      }
    }
  }

  /** The literal occurs in the script where it was captured. */
  lemma LiteralOccurs(js: string)
    requires FirstMatch(js).Some?
    ensures FirstMatch(js).value.literal != []
    ensures OccursAt(js, FirstMatch(js).value.literal, FirstMatch(js).value.literalAt)
  {
    MatchLiteralShape(js, FirstMatch(js).value.at);
  }

  /* ---------------------------------------------------------------------
   * The translation
   * ------------------------------------------------------------------- */

  /** The collaborators: `wplng_args_setup`, taken to hand back the entries
      of an array, and `wplng_translate_json`. */
  datatype JsEnv = JsEnv(
    argsSetup: Value -> seq<(Key, Value)>,
    translateJson: (string, Value) -> string)

  /** The arguments passed to the JSON translator: the set-up arguments with
      `parents` set to the list holding the variable name. */
  function JsonArgs(setup: seq<(Key, Value)>, name: string): (r: Value)
    ensures r.Arr?
    ensures Lookup(r, StrKey("parents")) == Arr([(IntKey(0), Str(name))])
    ensures forall k :: k != StrKey("parents") ==> Lookup(r, k) == LookupIn(setup, k)
  {
    Arr(Put(setup, StrKey("parents"), Arr([(IntKey(0), Str(name))])))
  }

  /** The translated literal for a match. */
  function TranslatedLiteral(m: Match, args: Value, env: JsEnv): string
  {
    env.translateJson(m.literal, JsonArgs(env.argsSetup(args), m.name))
  }

  /** `wplng_translate_js`. The script changes only by replacing the first
      match's literal with its translation, and only when the captured name
      and literal are non-empty. */
  function TranslateJs(js: string, args: Value, env: JsEnv): (r: string)
    ensures r != js ==>
      && FirstMatch(js).Some?
      && !EmptyString(FirstMatch(js).value.name)
      && r == StrReplace(js, FirstMatch(js).value.literal, TranslatedLiteral(FirstMatch(js).value, args, env))
  {
    if EmptyString(Trim(js)) then js
    else
      match FirstMatch(js)
      case None => js
      case Some(m) =>
        if EmptyString(m.name) || EmptyString(m.literal) then js
        else
          var translated := TranslatedLiteral(m, args, env);
          if m.literal != translated then StrReplace(js, m.literal, translated) else js
  }

  /** A blank script, one whose trim is '' or '0', is returned unchanged. */
  lemma BlankScriptUnchanged(js: string, args: Value, env: JsEnv)
    requires (forall i :: 0 <= i < |js| ==> IsTrimmable(js[i])) || Trim(js) == "0"
    ensures TranslateJs(js, args, env) == js
  {
  }

  /** Without a match, or with an empty captured name, the script is
      returned unchanged. */
  lemma NoMatchUnchanged(js: string, args: Value, env: JsEnv)
    requires FirstMatch(js).None? || EmptyString(FirstMatch(js).value.name)
    ensures TranslateJs(js, args, env) == js
  {
  }

  /** The translator hands back the literal: the script is unchanged. */
  lemma SameLiteralUnchanged(js: string, args: Value, env: JsEnv)
    requires FirstMatch(js).Some?
    requires TranslatedLiteral(FirstMatch(js).value, args, env) == FirstMatch(js).value.literal
    ensures TranslateJs(js, args, env) == js
  {
  }

  /** Otherwise the script is `str_replace` of the first match's literal,
      which occurs in the script where it was captured, by its translation,
      the translator being called with that literal and with `parents` set to
      the list of the first match's name. `Php.StrReplaceSplice` then says
      what the splice keeps and what it changes. */
  lemma TranslatedLiteralReplaced(js: string, args: Value, env: JsEnv, m: Match)
    requires !EmptyString(Trim(js))
    requires FirstMatch(js) == Some(m) && !EmptyString(m.name)
    requires TranslatedLiteral(m, args, env) != m.literal
    ensures m.literal != [] && OccursAt(js, m.literal, m.literalAt)
    ensures TranslateJs(js, args, env)
      == StrReplace(js, m.literal, env.translateJson(m.literal, JsonArgs(env.argsSetup(args), m.name)))
  {
    LiteralOccurs(js);
    MatchLiteralShape(js, m.at);
    assert |m.literal| >= 2;
    assert !EmptyString(m.literal);
    var translated := TranslatedLiteral(m, args, env);
    assert TranslateJs(js, args, env) == StrReplace(js, m.literal, translated);
  }

  /** When the translator hands back a different literal, the script
      changes. */
  lemma TranslatedLiteralChanges(js: string, args: Value, env: JsEnv, m: Match)
    requires !EmptyString(Trim(js))
    requires FirstMatch(js) == Some(m) && !EmptyString(m.name)
    requires TranslatedLiteral(m, args, env) != m.literal
    ensures TranslateJs(js, args, env) != js
  {
    TranslatedLiteralReplaced(js, args, env, m);
    StrReplaceChanges(js, m.literal, TranslatedLiteral(m, args, env), m.literalAt);
  }
}
